// The declaration and file parsers without the "white space, then newline" alternatives, and the proof that they are
// the same parsers.
module Simplified {
  import opened Options
  import opened Megaparsec
  import opened Parsed
  import opened ParseDecl
  import P = Parse

  function EndsInComma(s: string): (r: Res<()>)
    ensures r.Leaves(|s| - 1)
  {
    Or(s, Try(s, P.CommaComment(s)), Char(',', s))
  }

  function ArgEnd(s: string): (r: Res<()>)
    ensures r.Leaves(|s|)
  {
    Or(s, EndsInComma(s), P.EndsInParen(s))
  }

  function FunctionArg(s: string): (r: Res<Arg>)
    ensures r.Leaves(|s| - 1)
  {
    var s1 := Space(s).rest;
    var (_, s2) :- Optional(s1, P.Qualifier(s1));
    P.ParsableTypesConsume(s2);
    var (ty, s3) :- P.ParsableTypes(s2);
    var s4 := Space(s3).rest;
    var (name, s5) :- Optional(s4, P.ArgName(s4));
    var (_, s6) :- ArgEnd(s5);
    Ok(Arg(ty, if name.Some? then name.value else ""), s6)
  }

  function SomeArgs(s: string): (r: Res<seq<Arg>>)
    ensures r.Leaves(|s| - 1)
    decreases |s|, 0
  {
    var (a, s1) :- FunctionArg(s);
    var (rest, s2) :- ManyArgs(s1);
    Ok([a] + rest, s2)
  }

  function ManyArgs(s: string): (r: Res<seq<Arg>>)
    ensures r.Leaves(|s|)
    decreases |s|, 1
  {
    Or(s, SomeArgs(s), Ok([], s))
  }

  function FunctionArgs(s: string): (r: Res<seq<Arg>>)
    ensures r.Leaves(|s|)
  {
    var (_, s1) :- Char('(', s);
    P.CloseArgs(SomeArgs(s1))
  }

  function FunctionRest(ret: Parsable, s2: string): (r: Res<Option<Function>>)
    ensures r.Leaves(|s2| - 1)
  {
    var s3 := Space(s2).rest;
    var (name, s4) :- Or(s3, Try(s3, P.GenericName(s3)), P.PlainName(s3));
    var (args, s5) :- FunctionArgs(s4);
    var s6 := Space(s5).rest;
    var (_, s7) :- Char(';', s6);
    var (_, s8) :- Optional(s7, Try(s7, P.Comment(s7)));
    Ok(Some(Function(name.0, name.1, args, ret)), s8)
  }

  function FunctionDecl(s: string): (r: Res<Option<Function>>)
    ensures r.Leaves(|s| - 1)
  {
    var (_, s1) :- Optional(s, P.ApiThenSpace(s));
    var (ret, s2) :- P.ParsableTypes(s1);
    FunctionRest(ret, s2)
  }

  function Item(s: string): (r: Res<Option<Function>>)
    ensures r.Leaves(|s| - 1)
  {
    Or(s, Try(s, P.Constant(s)), Or(s, Try(s, FunctionDecl(s)), P.Skip(s)))
  }

  function Parser(s: string): (r: Res<seq<Option<Function>>>)
    ensures r.Leaves(|s| - 1)
    decreases |s|, 0
  {
    var (x, s1) :- Item(s);
    var (xs, s2) :- ManyItems(s1);
    Ok([x] + xs, s2)
  }

  function ManyItems(s: string): (r: Res<seq<Option<Function>>>)
    ensures r.Leaves(|s|)
    decreases |s|, 1
  {
    Or(s, Parser(s), Ok([], s))
  }

  // ---- the same results on all inputs ----

  lemma SameArgEnd(s: string)
    ensures ArgEnd(s) == P.ArgEnd(s)
  {
    DeadAlternatives(s);
  }

  lemma SameArg(s: string)
    ensures FunctionArg(s) == P.FunctionArg(s)
  {
    hide P.ArgEnd, ArgEnd, Space, Optional, P.Qualifier, P.ParsableTypes, P.ArgName;
    var s1 := Space(s).rest;
    var q := Optional(s1, P.Qualifier(s1));
    if q.Ok? && P.ParsableTypes(q.rest).Ok? {
      var s4 := Space(P.ParsableTypes(q.rest).rest).rest;
      var name := Optional(s4, P.ArgName(s4));
      if name.Ok? { SameArgEnd(name.rest); }
    }
  }

  lemma {:induction false} SameArgs(s: string)
    ensures SomeArgs(s) == P.SomeArgs(s)
    decreases |s|
  {
    hide P.FunctionArg, FunctionArg;
    SameArg(s);
    if FunctionArg(s).Ok? { SameArgs(FunctionArg(s).rest); }
  }

  lemma SameFunctionArgs(s: string)
    ensures FunctionArgs(s) == P.FunctionArgs(s)
  {
    hide P.SomeArgs, SomeArgs, P.CloseArgs;
    DeadAlternatives(s);
    if Char('(', s).Ok? { SameArgs(s[1..]); }
  }

  lemma SameRest(ret: Parsable, s: string)
    ensures FunctionRest(ret, s) == P.FunctionRest(ret, s)
  {
    hide FunctionArgs, P.FunctionArgs, Space, Optional, Or, Try, P.GenericName, P.PlainName, P.Comment;
    var s3 := Space(s).rest;
    var name := Or(s3, Try(s3, P.GenericName(s3)), P.PlainName(s3));
    if name.Ok? { SameFunctionArgs(name.rest); }
  }

  // Reading a declaration never depends on the alternatives.
  lemma SameFunction(s: string)
    ensures FunctionDecl(s) == P.FunctionDecl(s)
  {
    hide Optional, P.ApiThenSpace, P.ParsableTypes, FunctionRest, P.FunctionRest;
    var api := Optional(s, P.ApiThenSpace(s));
    if api.Ok? && P.ParsableTypes(api.rest).Ok? {
      SameRest(P.ParsableTypes(api.rest).val, P.ParsableTypes(api.rest).rest);
    }
  }

  lemma SameItem(s: string)
    ensures Item(s) == P.Item(s)
  {
    hide FunctionDecl, P.FunctionDecl, P.Constant, P.Skip;
    SameFunction(s);
  }

  // Nor does reading a file.
  lemma {:induction false} SameParser(s: string)
    ensures Parser(s) == P.Parser(s)
    decreases |s|
  {
    hide Item, P.Item;
    SameItem(s);
    if Item(s).Ok? { SameParser(Item(s).rest); }
  }
}
