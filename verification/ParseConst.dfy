// Constants: what the header parser reads and skips as one.
module ParseConst {
  import opened Options
  import opened Chars
  import opened Megaparsec
  import opened Parsed
  import opened Parse
  import opened Spelling
  import opened ParseTypes
  import opened ParseDecl
  import C = RenderC

  datatype ConstDecl = ConstDecl(
    lead: string,        // white space after the word const
    modifier: string,    // "const ", "unsigned ", "struct " or nothing
    constType: Parsable,
    stars: seq<string>,  // the white space before each star
    gap: string,         // white space between type and name
    name: string)

  predicate ShapesConst(c: ConstDecl) {
    && Blank(c.lead) && IsModifier(c.modifier) && |c.stars| == Depth(c.constType) && EachBlank(c.stars)
    && Blank(c.gap) && c.name != "" && All(IsIdent, c.name)
  }

  predicate FitsConst(c: ConstDecl) { ShapesConst(c) && (c.stars == [] ==> c.gap != "") }

  // The remainder of a constant behind its type.
  function ConstTail(c: ConstDecl, k: string): string { c.gap + (c.name + (";" + k)) }

  function ConstType(c: ConstDecl, k: string): string {
    c.modifier + (C.Render(Innermost(c.constType)) + StarText(c.stars, ConstTail(c, k)))
  }

  // The constant c in front of the text k.
  function ConstText(c: ConstDecl, k: string): string { "const" + (c.lead + ConstType(c, k)) }

  lemma ConstStart(c: ConstDecl, k: string)
    ensures ConstText(c, k)[0] == 'c' && "const" <= ConstText(c, k)
  {
  }

  lemma ConstTailStart(c: ConstDecl, k: string)
    requires FitsConst(c)
    ensures var n := ConstTail(c, k);
      Space(n) == Ok((), c.name + (";" + k)) && NoStar(n) && (c.stars == [] ==> !Starts(IsIdent, n))
  {
    var t := c.name + (";" + k);
    assert t[0] == c.name[0];
    SpaceRun(c.gap, t);
    var n := ConstTail(c, k);
    if c.gap == "" { assert n == t; } else { assert n[0] == c.gap[0]; }
  }

  lemma ConstTypeStart(c: ConstDecl, k: string)
    requires FitsConst(c)
    ensures Space(c.lead + ConstType(c, k)) == Ok((), ConstType(c, k))
  {
    hide C.Render;
    var u := ConstType(c, k);
    BareTypeStart(c.modifier, Innermost(c.constType), StarText(c.stars, ConstTail(c, k)));
    SpaceRun(c.lead, u);
  }

  lemma ConstSteps(s: string, s1: string, s2: string, s3: string, s4: string)
    requires s == "const" + s1 && Space(s1) == Ok((), s2)
    requires ParsableTypes(s2).Ok? && ParsableTypes(s2).rest == s3 && Space(s3).rest == s4
    ensures Constant(s) == ConstantRest(s3)
    ensures Some1(IsIdent, s4).Err? ==> Constant(s).Err?
  {
    hide ParsableTypes, Space;
    StrHere("const", s1);
  }

  lemma ConstName(s3: string, name: string, k: string)
    requires Space(s3) == Ok((), name + (";" + k)) && name != "" && All(IsIdent, name)
    ensures ConstantRest(s3) == Ok(None, k)
  {
    SomeRun(IsIdent, name, ";" + k);
    assert (";" + k)[1..] == k;
  }

  // A constant is read up to its semicolon and gives no function; everything behind the semicolon is left.  One whose
  // type has more than two stars is not read.
  lemma ConstantRoundTrip(c: ConstDecl, k: string)
    requires FitsConst(c)
    ensures Depth(c.constType) <= 2 ==> Constant(ConstText(c, k)) == Ok(None, k)
    ensures Depth(c.constType) > 2 ==> Constant(ConstText(c, k)).Err?
  {
    hide ParsableTypes, Constant, ConstantRest, C.Render, Space;
    var b, n, u := Innermost(c.constType), ConstTail(c, k), ConstType(c, k);
    ConstTypeStart(c, k);
    ConstTailStart(c, k);
    if Depth(c.constType) <= 2 {
      ParsableTypesOk(c.modifier, b, c.stars, n);
      ConstSteps(ConstText(c, k), c.lead + u, u, n, c.name + (";" + k));
      ConstName(n, c.name, k);
    } else {
      DeepType(c.modifier, b, c.stars, n);
      var s3 := ParsableTypes(u).rest;
      ConstSteps(ConstText(c, k), c.lead + u, u, s3, Space(s3).rest);
    }
  }

  // No declaration begins in white space before a constant.
  lemma NoDeclAtConst(c: ConstDecl, k: string)
    ensures TypeTables(ConstText(c, k)).Err?
  {
    hide C.Render;
    var s := ConstText(c, k);
    ConstStart(c, k);
    assert s[1] == 'o';
    forall x: Parsable | !x.Ptr? ensures !(C.Render(x) <= s) { BaseShape(x); }
    TypeTablesMiss(s);
  }
}
