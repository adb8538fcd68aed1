// CodeGen.Parse: the ordered-choice parser of TH header files.
module Parse {
  import opened Options
  import opened Chars
  import opened Megaparsec
  import opened Parsed
  import C = RenderC
  import Spelling

  function Star(s: string): (r: Res<()>)
    ensures r.Leaves(|s| - 1)
  {
    var s1 := Space(s).rest;
    Char('*', s1)
  }

  function Star2(s: string): (r: Res<()>)
    ensures r.Leaves(|s| - 2)
  {
    var (_, s1) :- Star(s);
    Star(s1)
  }

  // typeParser, wrapped in the Parsable constructor of its table.
  function Go1(x: Parsable, s: string): (r: Res<Parsable>)
    ensures r.Leaves(|s|)
  {
    var (_, s1) :- Str(C.Render(x), s);
    Ok(x, s1)
  }

  function GoPtr2(x: Parsable, s: string): (r: Res<Parsable>)
    ensures r.Leaves(|s|)
  {
    var (y, s1) :- Go1(x, s);
    var (_, s2) :- Star2(s1);
    Ok(Ptr(Ptr(y)), s2)
  }

  function GoPtr(x: Parsable, s: string): (r: Res<Parsable>)
    ensures r.Leaves(|s|)
  {
    var (y, s1) :- Go1(x, s);
    var (_, s2) :- Star(s1);
    Ok(Ptr(y), s2)
  }

  // One table entry: the double pointer first, then the pointer, then the bare type.
  function GoAll(x: Parsable, s: string): (r: Res<Parsable>)
    ensures r.Leaves(|s|)
  {
    Or(s, Try(s, GoPtr2(x, s)), Or(s, Try(s, GoPtr(x, s)), Try(s, Go1(x, s))))
  }

  function GenericParsers(xs: seq<Parsable>, s: string): (r: Res<Parsable>)
    ensures r.Leaves(|s|)
  {
    if xs == [] then Err(s) else Or(s, GoAll(xs[0], s), GenericParsers(xs[1..], s))
  }

  // allTenTypes: the raw types in order, each with every library in order.
  function TenTable(): seq<Parsable> {
    seq(189, i requires 0 <= i < 189 => TenType(Pair(ALL_RAWS[i / 7], ALL_LIBS[i % 7])))
  }

  function CTypeTable(): seq<Parsable> {
    seq(18, i requires 0 <= i < 18 => CType(ALL_CTYPES[i]))
  }

  // forLibraries runs the same table once for each supported library.
  function TenTypesFor(libs: seq<LibType>, s: string): (r: Res<Parsable>)
    ensures r.Leaves(|s|)
  {
    if libs == [] then Err(s) else Or(s, GenericParsers(TenTable(), s), TenTypesFor(libs[1..], s))
  }

  function TenTypes(s: string): (r: Res<Parsable>)
    ensures r.Leaves(|s|)
  {
    TenTypesFor(SUPPORTED_LIBS, s)
  }

  function CTypes(s: string): (r: Res<Parsable>)
    ensures r.Leaves(|s|)
  {
    GenericParsers(CTypeTable(), s)
  }

  function TypeModifier(s: string): (r: Res<()>)
    ensures r.Leaves(|s|)
  {
    Or(s, Try(s, Str("const ", s)),
       Or(s, Try(s, Str("unsigned ", s)),
          Or(s, Try(s, Str("struct ", s)), Space(s))))
  }

  function TypeTables(s: string): (r: Res<Parsable>)
    ensures r.Leaves(|s|)
  {
    Or(s, Try(s, TenTypes(s)), CTypes(s))
  }

  function ParsableTypes(s: string): (r: Res<Parsable>)
    ensures r.Leaves(|s|)
  {
    var (_, s1) :- TypeModifier(s);
    TypeTables(s1)
  }

  function ApiFor(libs: seq<LibType>, s: string): (r: Res<()>)
    ensures r.Leaves(|s|)
  {
    if libs == [] then Err(s)
    else Or(s, Try(s, Str(ShowLib(libs[0]) + "_API", s)), ApiFor(libs[1..], s))
  }

  function Api(s: string): (r: Res<()>)
    ensures r.Leaves(|s|)
  {
    ApiFor(SUPPORTED_LIBS, s)
  }

  function ApiThenSpace(s: string): (r: Res<()>)
    ensures r.Leaves(|s|)
  {
    var (_, s1) :- Api(s);
    Space(s1)
  }

  function Qualifier(s: string): (r: Res<()>)
    ensures r.Leaves(|s|)
  {
    var (_, s1) :- Try(s, Or(s, Str("volatile", s), Str("const", s)));
    Space1(s1)
  }

  function ArgName(s: string): (r: Res<string>)
    ensures r.Leaves(|s|)
  {
    var (name, s1) :- Some1(IsIdent, s);
    var s2 := Space(s1).rest;
    Ok(name, s2)
  }

  // "//", a non-empty comment and its line end.
  function LineComment(s: string): (r: Res<()>)
    ensures r.Leaves(|s| - 1)
  {
    var (_, s1) :- Str("//", s);
    var (_, s2) :- Some1(NotNewline, s1);
    var (_, s3) :- Eol(s2);
    Ok((), s3)
  }

  function CommaNewline(s: string): (r: Res<()>)
    ensures r.Leaves(|s| - 1)
  {
    var (_, s1) :- Char(',', s);
    var s2 := Space(s1).rest;
    var (_, s3) :- Eol(s2);
    Ok((), s3)
  }

  function CommaComment(s: string): (r: Res<()>)
    ensures r.Leaves(|s| - 1)
  {
    var (_, s1) :- Char(',', s);
    var s2 := Space(s1).rest;
    LineComment(s2)
  }

  function EndsInComma(s: string): (r: Res<()>)
    ensures r.Leaves(|s| - 1)
  {
    Or(s, Try(s, CommaNewline(s)), Or(s, Try(s, CommaComment(s)), Char(',', s)))
  }

  function CommentParen(s: string): (r: Res<()>)
    ensures r.Leaves(|s|)
  {
    var s1 := Space(s).rest;
    var (_, s2) :- LineComment(s1);
    var s3 := Space(s2).rest;
    LookAhead(s3, Char(')', s3))
  }

  function EndsInParen(s: string): (r: Res<()>)
    ensures r.Leaves(|s|)
  {
    Or(s, Try(s, CommentParen(s)), LookAhead(s, Char(')', s)))
  }

  function ArgEnd(s: string): (r: Res<()>)
    ensures r.Leaves(|s|)
  {
    Or(s, EndsInComma(s), EndsInParen(s))
  }

  function FunctionArg(s: string): (r: Res<Arg>)
    ensures r.Leaves(|s| - 1)
  {
    var s1 := Space(s).rest;
    var (_, s2) :- Optional(s1, Qualifier(s1));
    ParsableTypesConsume(s2);
    var (ty, s3) :- ParsableTypes(s2);
    var s4 := Space(s3).rest;
    var (name, s5) :- Optional(s4, ArgName(s4));
    var (_, s6) :- ArgEnd(s5);
    Ok(Arg(ty, if name.Some? then name.value else ""), s6)
  }

  function SomeArgs(s: string): (r: Res<seq<Arg>>)
    ensures r.Leaves(|s| - 1)
    decreases |s|, 0
  {
    var (a, s1) :- FunctionArg(s);
    var (rest, s2) :- ManyArgs(s1);
    Ok([a] + rest, s2)
  }

  function ManyArgs(s: string): (r: Res<seq<Arg>>)
    ensures r.Leaves(|s|)
    decreases |s|, 1
  {
    Or(s, SomeArgs(s), Ok([], s))
  }

  function ParenNewline(s: string): (r: Res<()>)
    ensures r.Leaves(|s|)
  {
    var (_, s1) :- Char('(', s);
    var s2 := Space(s1).rest;
    var (_, s3) :- Eol(s2);
    Ok((), s3)
  }

  function OpenArgs(s: string): (r: Res<()>)
    ensures r.Leaves(|s|)
  {
    Or(s, Try(s, ParenNewline(s)), Char('(', s))
  }

  // The closing parenthesis behind a list of arguments.
  function CloseArgs(r: Res<seq<Arg>>): Res<seq<Arg>> {
    var (args, s) :- r;
    var (_, s1) :- Char(')', s);
    Ok(args, s1)
  }

  function FunctionArgs(s: string): (r: Res<seq<Arg>>)
    ensures r.Leaves(|s|)
  {
    var (_, s1) :- OpenArgs(s);
    CloseArgs(SomeArgs(s1))
  }

  const SUFFIXES: seq<string> := ["Tensor", "Blas", "Lapack", "Storage", "Vector", ""]

  function Prefix(lt: LibType, x: string, s: string): (r: Res<(LibType, string)>)
    ensures r.Leaves(|s|)
  {
    var (_, s1) :- Str(ShowLib(lt), s);
    var (_, s2) :- Str(x, s1);
    var (_, s3) :- Str("_(", s2);
    Ok((lt, x), s3)
  }

  // The 24 library and suffix pairs, all suffixes of a library before the next library.
  function PrefixTable(): seq<(LibType, string)> {
    seq(24, i requires 0 <= i < 24 => (SUPPORTED_LIBS[i / 6], SUFFIXES[i % 6]))
  }

  function PrefixesFrom(table: seq<(LibType, string)>, s: string): (r: Res<(LibType, string)>)
    ensures r.Leaves(|s|)
  {
    if table == [] then Err(s)
    else Or(s, Try(s, Prefix(table[0].0, table[0].1, s)), PrefixesFrom(table[1..], s))
  }

  function GenericPrefixes(s: string): (r: Res<(LibType, string)>)
    ensures r.Leaves(|s|)
  {
    PrefixesFrom(PrefixTable(), s)
  }

  function ConcreteName(s: string): (r: Res<string>)
    ensures r.Leaves(|s|)
  {
    var (name, s1) :- Or(s, Some1(IsIdent, s), Ok("", s));
    var s2 := Space(s1).rest;
    Ok(name, s2)
  }

  type Name = (Option<(LibType, string)>, string)

  function GenericName(s: string): (r: Res<Name>)
    ensures r.Leaves(|s|)
  {
    var (pref, s1) :- GenericPrefixes(s);
    var (name, s2) :- ConcreteName(s1);
    var (_, s3) :- Str(")", s2);
    var s4 := Space(s3).rest;
    Ok((Some(pref), name), s4)
  }

  function PlainName(s: string): (r: Res<Name>)
    ensures r.Leaves(|s|)
  {
    var (name, s1) :- ConcreteName(s);
    Ok((None, name), s1)
  }

  function Comment(s: string): (r: Res<()>)
    ensures r.Leaves(|s|)
  {
    var s1 := Space(s).rest;
    var (_, s2) :- Str("/*", s1);
    var (_, s3) :- Some1(IsCommentChar, s2);
    var (_, s4) :- Str("*/", s3);
    Ok((), s4)
  }

  // The remainder of a declaration behind its return type.
  function FunctionRest(ret: Parsable, s2: string): (r: Res<Option<Function>>)
    ensures r.Leaves(|s2| - 1)
  {
    var s3 := Space(s2).rest;
    var (name, s4) :- Or(s3, Try(s3, GenericName(s3)), PlainName(s3));
    var (args, s5) :- FunctionArgs(s4);
    var s6 := Space(s5).rest;
    var (_, s7) :- Char(';', s6);
    var (_, s8) :- Optional(s7, Try(s7, Comment(s7)));
    Ok(Some(Function(name.0, name.1, args, ret)), s8)
  }

  function FunctionDecl(s: string): (r: Res<Option<Function>>)
    ensures r.Leaves(|s| - 1)
  {
    var (_, s1) :- Optional(s, ApiThenSpace(s));
    var (ret, s2) :- ParsableTypes(s1);
    FunctionRest(ret, s2)
  }

  // The remainder of a constant behind its type.
  function ConstantRest(s3: string): (r: Res<Option<Function>>)
    ensures r.Leaves(|s3| - 1)
  {
    var s4 := Space(s3).rest;
    var (_, s5) :- Some1(IsIdent, s4);
    var (_, s6) :- Char(';', s5);
    Ok(None, s6)
  }

  function Constant(s: string): (r: Res<Option<Function>>)
    ensures r.Leaves(|s| - 1)
  {
    var (_, s1) :- Str("const", s);
    var s2 := Space(s1).rest;
    var (_, s3) :- ParsableTypes(s2);
    ConstantRest(s3)
  }

  function LineEnd(s: string): (r: Res<()>)
    ensures r.Leaves(|s|)
  {
    Or(s, Eol(s), if s == "" then Ok((), s) else Err(s))
  }

  // Skip the rest of a line; fails only at the end of the input.
  function Skip(s: string): (r: Res<Option<Function>>)
    ensures r.Leaves(|s| - 1)
    ensures r.Ok? <==> s != ""
    ensures r.Err? ==> r.at == s
  {
    if s == "" then Err(s)
    else
      var s1 := Many(NotNewline, s).rest;
      Ok(None, LineEnd(s1).rest)
  }

  function Item(s: string): (r: Res<Option<Function>>)
    ensures r.Leaves(|s| - 1)
  {
    Or(s, Try(s, Constant(s)), Or(s, Try(s, FunctionDecl(s)), Skip(s)))
  }

  // parser = some item: one entry per declaration, constant or skipped line.
  function Parser(s: string): (r: Res<seq<Option<Function>>>)
    ensures r.Leaves(|s| - 1)
    decreases |s|, 0
  {
    var (x, s1) :- Item(s);
    var (xs, s2) :- ManyItems(s1);
    Ok([x] + xs, s2)
  }

  function ManyItems(s: string): (r: Res<seq<Option<Function>>>)
    ensures r.Leaves(|s|)
    decreases |s|, 1
  {
    Or(s, Parser(s), Ok([], s))
  }

  function CatMaybes(xs: seq<Option<Function>>): seq<Function> {
    if xs == [] then []
    else (if xs[0].Some? then [xs[0].value] else []) + CatMaybes(xs[1..])
  }

  // Render.cleanList: a failed parse contributes no function.
  function CleanList(r: Res<seq<Option<Function>>>): seq<Function> {
    if r.Ok? then CatMaybes(r.val) else []
  }

  // A type is at least one character long; this is what makes "some functionArg" stop.
  lemma ParsableTypesConsume(s: string)
    ensures ParsableTypes(s).Leaves(|s| - 1)
  {
    var s1 := TypeModifier(s).rest;
    assert |s1| <= |s|;
    TableConsumes(TenTable(), s1);
    TenTypesConsume(SUPPORTED_LIBS, s1);
    TableConsumes(CTypeTable(), s1);
  }

  lemma {:induction false} TenTypesConsume(libs: seq<LibType>, s: string)
    requires GenericParsers(TenTable(), s).Leaves(|s| - 1)
    ensures TenTypesFor(libs, s).Leaves(|s| - 1)
  {
    if libs != [] { TenTypesConsume(libs[1..], s); }
  }

  lemma {:induction false} TableConsumes(xs: seq<Parsable>, s: string)
    requires forall x | x in xs :: !x.Ptr?
    ensures GenericParsers(xs, s).Leaves(|s| - 1)
  {
    if xs != [] {
      TableConsumes(xs[1..], s);
      Spelling.BaseShape(xs[0]);
    }
  }
}
