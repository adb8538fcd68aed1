// Whatever the declaration parser accepts is a declaration written out in full: the converse of the round trip.
module ParseSound {
  import opened Options
  import opened Chars
  import opened Megaparsec
  import opened Parsed
  import opened Parse
  import opened Spelling
  import opened ParseTypes
  import opened ParseDecl
  import opened DeclRoundTrip
  import opened ParseConst
  import C = RenderC

  // ---- types ----

  function Blanked(s: string): (w: string)
    ensures Blank(w) && s == w + Space(s).rest
    ensures !Starts(IsSpace, s) ==> w == ""
  {
    Many(IsSpace, s).val
  }

  lemma StarSound(s: string)
    requires Star(s).Ok?
    ensures Star(s).val == () && s == Blanked(s) + ("*" + Star(s).rest)
  {
    var u := Space(s).rest;
    assert u == "*" + u[1..];
  }

  lemma {:induction false} PointersShape(n: nat, x: Parsable)
    requires !x.Ptr?
    ensures Depth(Pointers(n, x)) == n && Innermost(Pointers(n, x)) == x
    ensures Canon(Pointers(n, x)) == Pointers(n, Canon(x))
  {
    if n > 0 { PointersShape(n - 1, x); }
  }

  lemma OneStar(w: string, k: string)
    ensures StarText([w], k) == w + ("*" + k)
  {
    assert [w][1..] == [];
  }

  lemma TwoStars(v: string, w: string, k: string)
    ensures StarText([v, w], k) == v + ("*" + (w + ("*" + k)))
  {
    assert [v, w][1..] == [w];
    OneStar(w, k);
  }

  // What one table entry accepts.
  lemma GoAllSound(x: Parsable, s: string) returns (ws: seq<string>)
    requires GoAll(x, s).Ok?
    ensures var r := GoAll(x, s);
      |ws| <= 2 && EachBlank(ws) && r.val == Pointers(|ws|, x) && s == C.Render(x) + StarText(ws, r.rest)
  {
    hide C.Render, Star;
    StrSplit(C.Render(x), s);
    var t := Str(C.Render(x), s).rest;
    assert Pointers(0, x) == x && Pointers(1, x) == Ptr(Pointers(0, x)) && Pointers(2, x) == Ptr(Pointers(1, x));
    if Star(t).Err? {
      GoAllSteps(x, s, t, t, t);
      ws := [];
    } else {
      var u := Star(t).rest;
      StarSound(t);
      if Star(u).Err? {
        GoAllSteps(x, s, t, u, u);
        ws := [Blanked(t)];
        OneStar(Blanked(t), u);
      } else {
        StarSound(u);
        GoAllSteps(x, s, t, u, Star(u).rest);
        ws := [Blanked(t), Blanked(u)];
        TwoStars(Blanked(t), Blanked(u), Star(u).rest);
      }
    }
  }

  // The entry that accepts is the first one whose spelling begins the text.
  lemma {:induction false} FirstHit(xs: seq<Parsable>, s: string) returns (i: nat)
    requires GenericParsers(xs, s).Ok?
    ensures i < |xs| && C.Render(xs[i]) <= s && GenericParsers(xs, s) == GoAll(xs[i], s)
    ensures forall j | 0 <= j < i :: !(C.Render(xs[j]) <= s)
  {
    if C.Render(xs[0]) <= s {
      GoAllMatch(xs[0], s);
      i := 0;
    } else {
      GoAllMismatch(xs[0], s);
      var j := FirstHit(xs[1..], s);
      i := j + 1;
    }
  }

  lemma {:induction false} TenTypesOnce(libs: seq<LibType>, s: string)
    requires TenTypesFor(libs, s).Ok?
    ensures TenTypesFor(libs, s) == GenericParsers(TenTable(), s)
  {
    hide GenericParsers;
    if GenericParsers(TenTable(), s).Err? { TenTypesOnce(libs[1..], s); }
  }

  // The first entry with a spelling is the canonical one.
  lemma FirstIsCanon(i: nat, s: string)
    requires i < 189 && C.Render(TenTable()[i]) <= s
    requires forall j | 0 <= j < i :: !(C.Render(TenTable()[j]) <= s)
    ensures Canon(TenTable()[i]) == TenTable()[i]
  {
    var r, l := i / 7, i % 7;
    TableEntry(r, l);
    TableEntry(r, 0);
    var x := TenTable()[7 * r];
    assert 7 * r < i ==> !(C.Render(x) <= s);
  }

  // What the tables accept: the spelling of a base type and up to two stars.
  lemma TablesSound(s: string) returns (ws: seq<string>)
    requires TypeTables(s).Ok?
    ensures var t := TypeTables(s).val;
      && Canon(t) == t && Depth(t) == |ws| <= 2 && EachBlank(ws)
      && s == C.Render(Innermost(t)) + StarText(ws, TypeTables(s).rest)
  {
    hide GenericParsers, GoAll, C.Render;
    if TenTypes(s).Ok? {
      TenTypesOnce(SUPPORTED_LIBS, s);
      var i := FirstHit(TenTable(), s);
      FirstIsCanon(i, s);
      ws := GoAllSound(TenTable()[i], s);
      PointersShape(|ws|, TenTable()[i]);
    } else {
      var i := FirstHit(CTypeTable(), s);
      ws := GoAllSound(CTypeTable()[i], s);
      PointersShape(|ws|, CTypeTable()[i]);
    }
  }

  lemma ModifierSound(s: string) returns (b: string, m: string)
    ensures TypeModifier(s).Ok? && s == b + (m + TypeModifier(s).rest)
    ensures Blank(b) && IsModifier(m) && (!Starts(IsSpace, s) ==> b == "")
  {
    hide Space;
    b, m := "", if "const " <= s then "const " else if "unsigned " <= s then "unsigned " else "struct ";
    if m <= s {
      ModifierFound(m, s);
      StrSplit(m, s);
      NoText(s);
    } else {
      b, m := Blanked(s), "";
      NoText(Space(s).rest);
    }
  }

  lemma NoText(s: string)
    ensures "" + s == s
  {
  }

  lemma ModifierFound(m: string, s: string)
    requires m == (if "const " <= s then "const " else if "unsigned " <= s then "unsigned " else "struct ") && m <= s
    ensures TypeModifier(s) == Str(m, s) && Str(m, s).Ok?
  {
  }

  // What typesParser accepts.
  lemma TypeSound(s: string) returns (b: string, m: string, ws: seq<string>)
    requires ParsableTypes(s).Ok?
    ensures var t := ParsableTypes(s).val;
      && Blank(b) && IsModifier(m) && (!Starts(IsSpace, s) ==> b == "")
      && Canon(t) == t && Depth(t) == |ws| <= 2 && EachBlank(ws)
      && s == b + (m + (C.Render(Innermost(t)) + StarText(ws, ParsableTypes(s).rest)))
  {
    hide TypeModifier, TypeTables, C.Render;
    b, m := ModifierSound(s);
    ws := TablesSound(TypeModifier(s).rest);
  }

  // ---- arguments ----

  lemma QualifierSound(s: string) returns (q: Option<(string, string)>)
    requires Optional(s, Qualifier(s)).Ok?
    ensures (q.Some? ==> IsQualifier(q.value)) && s == QualifierText(q, Optional(s, Qualifier(s)).rest)
    ensures !Starts(IsSpace, s) ==> !Starts(IsSpace, Optional(s, Qualifier(s)).rest)
  {
    q := None;
    if Qualifier(s).Ok? {
      var w := if "volatile" <= s then "volatile" else "const";
      StrSplit(w, s);
      var t := Str(w, s).rest;
      q := Some((w, Blanked(t)));
    }
  }

  lemma NameSound(s: string) returns (trail: string)
    requires Optional(s, ArgName(s)).Ok? && !Starts(IsSpace, s)
    ensures var r := Optional(s, ArgName(s)); var name := if r.val.Some? then r.val.value else "";
      Blank(trail) && All(IsIdent, name) && s == name + (trail + r.rest) && !Starts(IsSpace, r.rest)
  {
    trail := "";
    if Starts(IsIdent, s) {
      trail := Blanked(Many(IsIdent, s).rest);
    } else {
      assert "" + ("" + s) == s;
    }
  }

  lemma LineCommentSound(s: string, pad: string) returns (n: Note)
    requires LineComment(s).Ok? && Blank(pad)
    ensures FitsNote(n) && n.pad == pad && s == NoteText(n, LineComment(s).rest)
  {
    StrSplit("//", s);
    var s1 := Str("//", s).rest;
    var m := Many(NotNewline, s1);
    n := Note(pad, m.val);
    assert !("\r\n" <= m.rest) by { if "\r\n" <= m.rest { assert NotNewline(m.rest[0]); } }
    assert m.rest == "\n" + m.rest[1..];
  }

  lemma CommaSound(s: string) returns (n: Option<Note>)
    requires EndsInComma(s).Ok?
    ensures (n.Some? ==> FitsNote(n.value)) && s == CommaText(n, EndsInComma(s).rest)
  {
    hide LineComment, NoteText, FitsNote;
    DeadAlternatives(s);
    assert s == "," + s[1..];
    n := None;
    if CommaComment(s).Ok? {
      var u := Space(s[1..]).rest;
      var note := LineCommentSound(u, Blanked(s[1..]));
      n := Some(note);
    }
  }

  lemma ParenSound(s: string) returns (n: Option<Note>)
    requires EndsInParen(s).Ok? && !Starts(IsSpace, s)
    ensures (n.Some? ==> FitsNote(n.value))
    ensures var k := EndsInParen(s).rest; k != "" && k[0] == ')' && s == CloseText(n, k[1..])
  {
    hide LineComment, NoteText, FitsNote;
    SpaceNone(s);
    n := None;
    var k := EndsInParen(s).rest;
    assert k != "" && k == ")" + k[1..];
    if CommentParen(s).Ok? {
      var t := LineComment(s).rest;
      var note := LineCommentSound(s, Blanked(t));
      n := Some(note);
    }
  }

  // How an argument ends: with a comma, or in front of the closing parenthesis.
  function Ended(n: Option<Note>, closes: bool, k: string): string {
    if closes then (if k == "" then "" else CloseText(n, k[1..])) else CommaText(n, k)
  }

  lemma EndSound(s: string) returns (n: Option<Note>, closes: bool)
    requires ArgEnd(s).Ok? && !Starts(IsSpace, s)
    ensures var k := ArgEnd(s).rest;
      && (n.Some? ==> FitsNote(n.value)) && (closes ==> k != "" && k[0] == ')')
      && s == Ended(n, closes, k)
  {
    hide EndsInComma, EndsInParen, CommaText, CloseText, FitsNote;
    closes := EndsInComma(s).Err?;
    if closes { n := ParenSound(s); } else { n := CommaSound(s); }
  }

  predicate CanonListable(a: Arg) { CanonArg(a) == a && Depth(a.argType) <= 2 }

  lemma ArgTextIs(a: Arg, l: ArgLayout, k: string, s2: string, s3: string, s4: string)
    requires s4 == a.argName + (l.trail + k) && s3 == l.gap + s4
    requires s2 == l.modifier + (C.Render(Innermost(a.argType)) + StarText(l.stars, s3))
    ensures l.lead + QualifierText(l.qualifier, s2) == ArgText(a, l, k)
  {
    hide C.Render, StarText;
  }

  // What functionArg accepts.
  lemma ArgSound(s: string) returns (l: ArgLayout)
    requires FunctionArg(s).Ok?
    ensures var a, k := FunctionArg(s).val, FunctionArg(s).rest;
      && ShapesArg(a, l) && CanonListable(a) && (!l.comma ==> k != "" && k[0] == ')')
      && s == ArgText(a, l, Ended(l.note, !l.comma, k))
  {
    hide Qualifier, ParsableTypes, ArgName, ArgEnd, Optional, Space, Ended, C.Render, FitsNote, IsQualifier, IsModifier,
         ArgText, EachBlank, QualifierText, StarText;
    var s1 := Space(s).rest;
    var q := QualifierSound(s1);
    var s2 := Optional(s1, Qualifier(s1)).rest;
    var b, m, ws := TypeSound(s2);
    var s3 := ParsableTypes(s2).rest;
    var s4 := Space(s3).rest;
    var trail := NameSound(s4);
    var s5 := Optional(s4, ArgName(s4)).rest;
    var n, closes := EndSound(s5);
    l := ArgLayout(Blanked(s), q, m, ws, Blanked(s3), trail, n, !closes);
    var a := FunctionArg(s).val;
    NoText(s2);
    ArgTextIs(a, l, s5, s2, s3, s4);
  }

  // What the list of arguments accepts; the parser lets a comma stand behind the last one.
  lemma {:induction false} ArgsSound(s: string) returns (ls: seq<ArgLayout>)
    requires CloseArgs(SomeArgs(s)).Ok?
    ensures var args, k := SomeArgs(s).val, CloseArgs(SomeArgs(s)).rest;
      ShapesArgs(args, ls) && Listable(args) && CanonArgs(args) == args && s == ArgsText(args, ls, k)
    decreases |s|
  {
    hide FunctionArg, ShapesArg, ArgText, CommaText, CloseText;
    var l := ArgSound(s);
    var a, t := FunctionArg(s).val, FunctionArg(s).rest;
    var args, k := SomeArgs(s).val, CloseArgs(SomeArgs(s)).rest;
    if SomeArgs(t).Ok? {
      if !l.comma { assert t == ")" + t[1..]; FunctionArgFails(t[1..]); }
      var rest := ArgsSound(t);
      ls := [l] + rest;
      assert args == [a] + SomeArgs(t).val && args[1..] == SomeArgs(t).val && ls[1..] == rest;
    } else {
      ls := [l];
      assert args == [a] && CanonArgs([]) == [] && t == ")" + k;
    }
  }

  lemma ListSound(s: string) returns (ls: seq<ArgLayout>)
    requires FunctionArgs(s).Ok?
    ensures var args, k := FunctionArgs(s).val, FunctionArgs(s).rest;
      ShapesArgs(args, ls) && Listable(args) && CanonArgs(args) == args && s == "(" + ArgsText(args, ls, k)
  {
    hide SomeArgs, ArgsText;
    DeadAlternatives(s);
    assert s == "(" + s[1..];
    ls := ArgsSound(s[1..]);
  }

  // ---- names and markers ----

  lemma {:induction false} PrefixesSound(table: seq<(LibType, string)>, s: string)
    requires PrefixesFrom(table, s).Ok?
    ensures var r := PrefixesFrom(table, s); r.val in table && s == GenericText(r.val, r.rest)
  {
    hide Prefix;
    var p := table[0];
    PrefixOk(p, s);
    if Prefix(p.0, p.1, s).Err? { PrefixesSound(table[1..], s); }
  }

  lemma WordSound(s: string) returns (ws: string)
    ensures var r := ConcreteName(s); r.Ok? && All(IsIdent, r.val) && Blank(ws) && s == r.val + (ws + r.rest)
  {
    var r := Or(s, Some1(IsIdent, s), Ok("", s));
    ws := Blanked(r.rest);
    assert "" + s == s;
  }

  function NameWith(name: Name, trail: string, close: string, k: string): string {
    match name.0
    case Some(p) => GenericText(p, name.1 + (trail + (")" + (close + k))))
    case None => name.1 + (trail + k)
  }

  lemma GenericSound(s: string) returns (trail: string, close: string)
    requires GenericName(s).Ok?
    ensures var name := GenericName(s).val;
      && name.0.Some? && IsPrefix(name.0.value) && All(IsIdent, name.1) && Blank(trail) && Blank(close)
      && s == NameWith(name, trail, close, GenericName(s).rest)
  {
    hide PrefixesFrom, ConcreteName, IsPrefix, GenericText;
    PrefixesSound(PrefixTable(), s);
    var r := GenericPrefixes(s);
    TableIsPrefix(r.val);
    trail := WordSound(r.rest);
    var s2 := ConcreteName(r.rest).rest;
    StrSplit(")", s2);
    close := Blanked(Str(")", s2).rest);
  }

  lemma FunctionNameSound(s: string) returns (trail: string, close: string)
    requires Or(s, Try(s, GenericName(s)), PlainName(s)).Ok?
    ensures var r := Or(s, Try(s, GenericName(s)), PlainName(s));
      && (r.val.0.Some? ==> IsPrefix(r.val.0.value)) && All(IsIdent, r.val.1) && Blank(trail) && Blank(close)
      && s == NameWith(r.val, trail, close, r.rest)
  {
    hide GenericName, ConcreteName, IsPrefix, GenericText;
    close := "";
    if GenericName(s).Ok? { trail, close := GenericSound(s); } else { trail := WordSound(s); }
  }

  lemma {:induction false} ApiForSound(libs: seq<LibType>, s: string) returns (lt: LibType)
    requires ApiFor(libs, s).Ok?
    ensures lt in libs && s == (ShowLib(lt) + "_API") + ApiFor(libs, s).rest
  {
    var w := ShowLib(libs[0]) + "_API";
    if w <= s {
      StrSplit(w, s);
      lt := libs[0];
    } else {
      lt := ApiForSound(libs[1..], s);
    }
  }

  lemma ApiSound(s: string) returns (a: Option<(LibType, string)>)
    requires Optional(s, ApiThenSpace(s)).Ok?
    ensures var t := Optional(s, ApiThenSpace(s)).rest;
      && (a.Some? ==> IsMarker(a.value) && !Starts(IsSpace, t))
      && s == ApiText(a, t)
  {
    hide ApiFor;
    a := None;
    if Api(s).Ok? {
      var lt := ApiForSound(SUPPORTED_LIBS, s);
      a := Some((lt, Blanked(Api(s).rest)));
    }
  }

  // ---- declarations ----

  // What the remainder of a declaration behind its return type is.
  lemma RestSound(ret: Parsable, s: string) returns (l: DeclLayout, j: string)
    requires FunctionRest(ret, s).Ok?
    ensures FunctionRest(ret, s).val.Some? && FunctionRest(ret, s).rest == AfterDecl(j)
    ensures var f := FunctionRest(ret, s).val.value;
      && ShapesArgs(f.funArgs, l.args) && Listable(f.funArgs) && CanonArgs(f.funArgs) == f.funArgs
      && f.funReturn == ret && (f.funPrefix.Some? ==> IsPrefix(f.funPrefix.value)) && All(IsIdent, f.funName)
      && Blank(l.gap) && Blank(l.nameTrail) && Blank(l.closeTrail) && Blank(l.semiGap)
      && s == l.gap + NameText(f, l, TailText(f, l, Ending(l, j)))
  {
    hide GenericName, PlainName, FunctionArgs, Space, Comment, IsPrefix, ShapesArg, Listable, CanonArgs, ArgsText,
         GenericText;
    var s3 := Space(s).rest;
    var r := Or(s3, Try(s3, GenericName(s3)), PlainName(s3));
    var trail, close := FunctionNameSound(s3);
    var ls := ListSound(r.rest);
    var s5 := FunctionArgs(r.rest).rest;
    var s6 := Space(s5).rest;
    j := s6[1..];
    assert s6 == ";" + j;
    l := DeclLayout(None, "", [], Blanked(s), trail, close, ls, Blanked(s5));
    var f := FunctionRest(ret, s).val.value;
    assert TailText(f, l, Ending(l, j)) == r.rest;
    assert NameText(f, l, r.rest) == s3;
  }

  // The text s, up to a point where j follows, is the declaration f.
  predicate Written(b: string, f: Function, l: DeclLayout, j: string, s: string) {
    Blank(b) && ShapesDecl(f, l) && s == b + DeclText(f, l, j)
  }

  // Soundness of the declaration parser on every text: what it reads is a declaration of exactly the function it
  // returns, with its types as the tables name them, an argument at least and no triple pointer.
  lemma FunctionSound(s: string) returns (b: string, l: DeclLayout, j: string)
    requires FunctionDecl(s).Ok?
    ensures FunctionDecl(s).val.Some? && FunctionDecl(s).rest == AfterDecl(j)
    ensures var f := FunctionDecl(s).val.value;
      Written(b, f, l, j, s) && CanonFunction(f) == f && Listable(f.funArgs) && Depth(f.funReturn) <= 2
  {
    hide ApiThenSpace, ParsableTypes, FunctionRest, Optional, IsModifier, IsPrefix, ShapesArg, Listable, CanonArgs,
         ArgsText, GenericText, C.Render;
    var api := ApiSound(s);
    var s1 := Optional(s, ApiThenSpace(s)).rest;
    var m, ws;
    b, m, ws := TypeSound(s1);
    var ret, s2 := ParsableTypes(s1).val, ParsableTypes(s1).rest;
    l, j := RestSound(ret, s2);
    var f := FunctionRest(ret, s2).val.value;
    l := l.(api := api, modifier := m, stars := ws);
    var t := m + (C.Render(Innermost(ret)) + StarText(ws, s2));
    assert t == m + ReturnText(f, l, Ending(l, j));
    assert b == "" ==> b + t == t && "" + s == s;
  }

  // ---- the end of a declaration ----

  predicate Ends(s: string, k: string) { |k| <= |s| && s[|s| - |k|..] == k }

  lemma EndsBehind(w: string, t: string, k: string)
    requires Ends(t, k)
    ensures Ends(w + t, k)
  {
  }

  lemma EndsSelf(w: string, k: string)
    ensures Ends(w + k, k)
  {
  }

  lemma {:induction false} StarsEnd(ws: seq<string>, t: string, k: string)
    requires Ends(t, k)
    ensures Ends(StarText(ws, t), k)
  {
    if ws != [] {
      StarsEnd(ws[1..], t, k);
      EndsBehind("*", StarText(ws[1..], t), k);
    }
  }

  lemma NoteEnd(n: Option<Note>, t: string, k: string)
    requires Ends(t, k)
    ensures Ends(CommaText(n, t), k)
  {
    hide Ends;
    EndsBehind(",", t, k);
    if n.Some? {
      EndsBehind("\n", t, k);
      EndsBehind(n.value.body, "\n" + t, k);
      EndsBehind("//", n.value.body + ("\n" + t), k);
      EndsBehind(n.value.pad, NoteText(n.value, t), k);
      EndsBehind(",", n.value.pad + NoteText(n.value, t), k);
    }
  }

  lemma LastEnd(l: ArgLayout, k: string)
    ensures Ends(LastText(l, k), ")" + k)
  {
    hide CommaText, Ends;
    var p := ")" + k;
    NoText(p);
    EndsSelf("", p);
    if l.comma {
      NoteEnd(l.note, p, p);
    } else if l.note.Some? {
      var n := l.note.value;
      EndsSelf(n.pad, p);
      EndsBehind("\n", n.pad + p, p);
      EndsBehind(n.body, "\n" + (n.pad + p), p);
      EndsBehind("//", n.body + ("\n" + (n.pad + p)), p);
    }
  }

  lemma ArgEnds(a: Arg, l: ArgLayout, e: string, k: string)
    requires Ends(e, k)
    ensures Ends(ArgText(a, l, e), k)
  {
    hide Ends, C.Render;
    EndsBehind(l.trail, e, k);
    EndsBehind(a.argName, l.trail + e, k);
    EndsBehind(l.gap, a.argName + (l.trail + e), k);
    var n, t := NamePart(a, l, e), TypePart(a, l, e);
    StarsEnd(l.stars, n, k);
    EndsBehind(C.Render(Innermost(a.argType)), StarText(l.stars, n), k);
    EndsBehind(l.modifier, C.Render(Innermost(a.argType)) + StarText(l.stars, n), k);
    if l.qualifier.Some? {
      EndsBehind(l.qualifier.value.1, t, k);
      EndsBehind(l.qualifier.value.0, l.qualifier.value.1 + t, k);
    }
    EndsBehind(l.lead, QualifierText(l.qualifier, t), k);
  }

  lemma {:induction false} ArgsEnd(args: seq<Arg>, ls: seq<ArgLayout>, k: string)
    requires |args| == |ls|
    ensures Ends(ArgsText(args, ls, k), ")" + k)
    decreases |args|
  {
    hide Ends, ArgText, CommaText, LastText;
    var p := ")" + k;
    if args == [] {
      EndsSelf("", p);
      assert "" + p == p;
    } else {
      if |args| == 1 {
        LastEnd(ls[0], k);
      } else {
        ArgsEnd(args[1..], ls[1..], k);
        NoteEnd(ls[0].note, ArgsText(args[1..], ls[1..], k), p);
      }
      ArgEnds(args[0], ls[0], EndText(args, ls, k), p);
    }
  }

  lemma NameEnd(f: Function, l: DeclLayout, t: string, k: string)
    requires Ends(t, k)
    ensures Ends(NameText(f, l, t), k)
  {
    hide Ends;
    if f.funPrefix.Some? {
      var p := f.funPrefix.value;
      EndsBehind(l.closeTrail, t, k);
      EndsBehind(")", l.closeTrail + t, k);
      var u := ")" + (l.closeTrail + t);
      EndsBehind(l.nameTrail, u, k);
      EndsBehind(f.funName, l.nameTrail + u, k);
      var v := f.funName + (l.nameTrail + u);
      EndsBehind("_(", v, k);
      EndsBehind(p.1, "_(" + v, k);
      EndsBehind(ShowLib(p.0), p.1 + ("_(" + v), k);
    } else {
      EndsBehind(l.nameTrail, t, k);
      EndsBehind(f.funName, l.nameTrail + t, k);
    }
  }

  lemma HeadEnd(f: Function, l: DeclLayout, e: string)
    requires |f.funArgs| == |l.args|
    ensures Ends(HeadText(f, l, e), ")" + e)
  {
    hide Ends, C.Render, ArgsText, NameText;
    var p, t := ")" + e, TailText(f, l, e);
    ArgsEnd(f.funArgs, l.args, e);
    EndsBehind("(", ArgsText(f.funArgs, l.args, e), p);
    NameEnd(f, l, t, p);
    EndsBehind(l.gap, NameText(f, l, t), p);
    var n := l.gap + NameText(f, l, t);
    StarsEnd(l.stars, n, p);
    EndsBehind(C.Render(Innermost(f.funReturn)), StarText(l.stars, n), p);
    var u := ReturnText(f, l, e);
    EndsBehind(l.modifier, u, p);
    if l.api.Some? {
      EndsBehind(l.api.value.1, l.modifier + u, p);
      EndsBehind(ShowLib(l.api.value.0) + "_API", l.api.value.1 + (l.modifier + u), p);
    }
  }

  // In particular its argument list is closed and a semicolon follows, wherever the reading then stops.
  lemma SemicolonRequired(s: string) returns (a: string, b: string, j: string)
    requires FunctionDecl(s).Ok?
    ensures s == a + (")" + (b + (";" + j))) && Blank(b) && FunctionDecl(s).rest == AfterDecl(j)
  {
    hide FunctionDecl, HeadText, AfterDecl, Listable, ShapesArg;
    var c, l;
    c, l, j := FunctionSound(s);
    var f := FunctionDecl(s).val.value;
    b := l.semiGap;
    HeadEnd(f, l, Ending(l, j));
    EndsBehind(c, DeclText(f, l, j), ")" + Ending(l, j));
    a := s[..|s| - |")" + Ending(l, j)|];
  }

  // What the parser drops behind a declaration: white space and a block comment of a single line.
  lemma CommentSound(s: string) returns (b: string, body: string)
    requires AfterDecl(s) != s
    ensures s == b + ("/*" + (body + ("*/" + AfterDecl(s))))
    ensures Blank(b) && body != "" && All(IsCommentChar, body)
  {
    var s1 := Space(s).rest;
    StrSplit("/*", s1);
    var r := Many(IsCommentChar, Str("/*", s1).rest);
    StrSplit("*/", r.rest);
    b, body := Blanked(s), r.val;
  }

  lemma CommentDropped(b: string, body: string, k: string)
    requires Blank(b) && body != "" && All(IsCommentChar, body)
    ensures AfterDecl(b + ("/*" + (body + ("*/" + k)))) == k
  {
    var t := "*/" + k;
    SpaceRun(b, "/*" + (body + t));
    StrHere("/*", body + t);
    SomeRun(IsCommentChar, body, t);
    StrHere("*/", k);
  }

  // ---- constants ----

  lemma ConstTailSound(s: string) returns (gap: string, name: string)
    requires ConstantRest(s).Ok?
    ensures ConstantRest(s).val.None? && Blank(gap) && name != "" && All(IsIdent, name)
    ensures s == gap + (name + (";" + ConstantRest(s).rest))
  {
    var r := Many(IsIdent, Space(s).rest);
    assert r.rest == ";" + r.rest[1..];
    gap, name := Blanked(s), r.val;
  }

  // What is read as a constant is one, written out up to its semicolon.
  lemma ConstantSound(s: string) returns (c: ConstDecl)
    requires Constant(s).Ok?
    ensures Constant(s).val.None? && ShapesConst(c) && Depth(c.constType) <= 2
    ensures s == ConstText(c, Constant(s).rest)
  {
    hide ParsableTypes, Space, ConstantRest, C.Render, IsModifier, EachBlank, Canon, StarText;
    StrSplit("const", s);
    var s1 := Str("const", s).rest;
    var s2 := Space(s1).rest;
    var b, m, ws := TypeSound(s2);
    NoText(s2);
    var s3 := ParsableTypes(s2).rest;
    var gap, name := ConstTailSound(s3);
    c := ConstDecl(Blanked(s1), m, ParsableTypes(s2).val, ws, gap, name);
    NoText(m + (C.Render(Innermost(c.constType)) + StarText(ws, s3)));
  }

  // ---- files ----

  // The functions that a parsed declaration can be.
  predicate Legible(f: Function) { CanonFunction(f) == f && Listable(f.funArgs) && Depth(f.funReturn) <= 2 }

  // The declarations fs stand in s, in this order and apart from each other.
  ghost predicate WrittenIn(fs: seq<Function>, s: string)
    decreases |fs|
  {
    fs == [] || exists l, j ::
      ShapesDecl(fs[0], l) && Ends(s, DeclText(fs[0], l, j)) && Legible(fs[0]) && WrittenIn(fs[1..], j)
  }

  lemma EndsTwice(s: string, t: string, u: string)
    requires Ends(s, t) && Ends(t, u)
    ensures Ends(s, u)
  {
    assert s[|s| - |t|..][|t| - |u|..] == s[|s| - |u|..];
  }

  lemma WrittenEarlier(fs: seq<Function>, s: string, t: string)
    requires WrittenIn(fs, t) && Ends(s, t)
    ensures WrittenIn(fs, s)
  {
    hide Ends, ShapesArg, DeclText, Legible;
    if fs != [] {
      var l, j :| ShapesDecl(fs[0], l) && Ends(t, DeclText(fs[0], l, j)) && Legible(fs[0]) && WrittenIn(fs[1..], j);
      EndsTwice(s, t, DeclText(fs[0], l, j));
    }
  }

  lemma AfterDeclEnds(j: string)
    ensures Ends(j, AfterDecl(j))
  {
    hide AfterDecl;
    if AfterDecl(j) != j {
      var b, body := CommentSound(j);
      var k := AfterDecl(j);
      EndsSelf("*/", k);
      EndsBehind(body, "*/" + k, k);
      EndsBehind("/*", body + ("*/" + k), k);
      EndsBehind(b, "/*" + (body + ("*/" + k)), k);
    }
  }

  lemma ConstEnds(c: ConstDecl, k: string)
    ensures Ends(ConstText(c, k), k)
  {
    hide Ends, C.Render;
    EndsSelf(";", k);
    EndsBehind(c.name, ";" + k, k);
    EndsBehind(c.gap, c.name + (";" + k), k);
    var n := ConstTail(c, k);
    StarsEnd(c.stars, n, k);
    EndsBehind(C.Render(Innermost(c.constType)), StarText(c.stars, n), k);
    EndsBehind(c.modifier, C.Render(Innermost(c.constType)) + StarText(c.stars, n), k);
    EndsBehind(c.lead, ConstType(c, k), k);
    EndsBehind("const", c.lead + ConstType(c, k), k);
  }

  lemma SkipEnds(s: string)
    requires s != ""
    ensures Skip(s).val.None? && Ends(s, Skip(s).rest)
  {
    var r := Many(NotNewline, s);
    EndsSelf(r.val, r.rest);
    var t := LineEnd(r.rest).rest;
    EndsTwice(s, r.rest, t);
  }

  // One entry of the file parser: a declaration that stands at this place, or nothing.
  lemma ItemSound(s: string, fs: seq<Function>)
    requires Item(s).Ok? && WrittenIn(fs, Item(s).rest)
    ensures WrittenIn((if Item(s).val.Some? then [Item(s).val.value] else []) + fs, s)
  {
    hide Constant, FunctionDecl, Skip, WrittenIn, ShapesDecl, DeclText, AfterDecl, Ends, ConstText, ShapesConst;
    var x, k := Item(s).val, Item(s).rest;
    if Constant(s).Ok? {
      var c := ConstantSound(s);
      ConstEnds(c, k);
      WrittenEarlier(fs, s, k);
    } else if FunctionDecl(s).Ok? {
      var b, l, j := FunctionSound(s);
      AfterDeclEnds(j);
      WrittenEarlier(fs, j, k);
      OneMore(x.value, fs, b, l, j, s);
    } else {
      SkipEnds(s);
      WrittenEarlier(fs, s, k);
    }
    assert [] + fs == fs;
  }

  lemma OneMore(f: Function, fs: seq<Function>, b: string, l: DeclLayout, j: string, s: string)
    requires Written(b, f, l, j, s) && Legible(f) && WrittenIn(fs, j)
    ensures WrittenIn([f] + fs, s)
  {
    hide ShapesArg, DeclText, Legible;
    EndsSelf(b, DeclText(f, l, j));
    var gs := [f] + fs;
    assert gs[0] == f && gs[1..] == fs;
    assert ShapesDecl(gs[0], l) && Ends(s, DeclText(gs[0], l, j)) && Legible(gs[0]) && WrittenIn(gs[1..], j);
  }

  // Soundness on every text: nothing the file parser returns is invented.  The declarations stand in the file, in
  // their order, each behind the end of the one before.
  lemma {:induction false} FileSound(s: string)
    requires Parser(s).Ok?
    ensures WrittenIn(CleanList(Parser(s)), s)
    decreases |s|
  {
    hide Item, ShapesDecl, DeclText, Ends, Legible;
    var k := Item(s).rest;
    if Parser(k).Ok? { FileSound(k); }
    ItemSound(s, CleanList(Parser(k)));
    Entries(s);
  }

  lemma Entries(s: string)
    requires Parser(s).Ok?
    ensures var x, k := Item(s).val, Item(s).rest;
      CleanList(Parser(s)) == (if x.Some? then [x.value] else []) + CleanList(Parser(k))
  {
    hide Item;
    var x, k := Item(s).val, Item(s).rest;
    var xs := ManyItems(k).val;
    assert if Parser(k).Ok? then xs == Parser(k).val else xs == [];
    var ys := [x] + xs;
    assert Parser(s).val == ys && ys[0] == x && ys[1..] == xs;
    assert CatMaybes(ys) == (if x.Some? then [x.value] else []) + CatMaybes(xs);
    assert CatMaybes(xs) == CleanList(Parser(k));
  }
}
