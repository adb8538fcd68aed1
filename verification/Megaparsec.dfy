// Character classes and the fragment of megaparsec 6.4 that the header parser uses.

module Chars {
  // The characters beyond ASCII that isAlphaNum accepts.  The set is left unspecified, so every
  // theorem of the project holds for whichever set a Unicode version chooses.
  const WIDE_ALNUM: set<char>

  // Data.Char.isSpace: the ASCII blanks and the Unicode category Space.
  predicate IsSpace(c: char) {
    var n := c as int;
    || n == 32 || 9 <= n <= 13 || n == 0xA0 || n == 0x1680
    || 0x2000 <= n <= 0x200A || n == 0x202F || n == 0x205F || n == 0x3000
  }

  predicate IsAlphaNum(c: char) {
    || 'a' <= c <= 'z' || 'A' <= c <= 'Z' || '0' <= c <= '9'
    || (c as int >= 128 && c in WIDE_ALNUM && !IsSpace(c))
  }

  predicate IsIdent(c: char) { IsAlphaNum(c) || c == '_' }

  predicate IsCommentChar(c: char) { IsIdent(c) || c == ' ' }

  predicate NotNewline(c: char) { c != '\n' }

  // Every character of s is in the class p.
  predicate All(p: char -> bool, s: string) { forall i | 0 <= i < |s| :: p(s[i]) }

  // s begins with a character of the class p.
  predicate Starts(p: char -> bool, s: string) { s != "" && p(s[0]) }
}

// A parser is modelled as a function from the remaining input to a result.  A failure records the
// input that was left when it happened: it "consumed" exactly when that differs from the input the
// parser was given, which is what decides whether <|>, many and optional may carry on.
module Megaparsec {
  import opened Options
  import opened Chars

  datatype Res<+T> = Ok(val: T, rest: string) | Err(at: string) {
    predicate IsFailure() { Err? }
    function PropagateFailure<U>(): Res<U> requires Err? { Err(at) }
    function Extract(): (T, string) requires Ok? { (val, rest) }

    // Success leaves no more than n characters.
    predicate Leaves(n: int) { Ok? ==> |rest| <= n }
  }

  // p <|> q: q is tried only when p failed without consuming.
  function Or<T>(s: string, p: Res<T>, q: Res<T>): Res<T> {
    if p.Err? && p.at == s then q else p
  }

  function Try<T>(s: string, p: Res<T>): Res<T> { if p.Err? then Err(s) else p }

  function LookAhead<T>(s: string, p: Res<T>): Res<T> { if p.Ok? then Ok(p.val, s) else p }

  function Optional<T>(s: string, p: Res<T>): Res<Option<T>> {
    match p
    case Ok(v, k) => Ok(Some(v), k)
    case Err(at) => if at == s then Ok(None, s) else Err(at)
  }

  function Char(c: char, s: string): Res<()> {
    if s != "" && s[0] == c then Ok((), s[1..]) else Err(s)
  }

  // string: since megaparsec 6 a mismatch never consumes.
  function Str(w: string, s: string): Res<()> {
    if w <= s then Ok((), s[|w|..]) else Err(s)
  }

  // many (satisfy p)
  function Many(p: char -> bool, s: string): (r: Res<string>)
    ensures r.Ok? && r.val + r.rest == s
    ensures All(p, r.val) && !Starts(p, r.rest)
  {
    if s != "" && p(s[0]) then
      var tail := Many(p, s[1..]);
      Ok([s[0]] + tail.val, tail.rest)
    else Ok("", s)
  }

  // some (satisfy p)
  function Some1(p: char -> bool, s: string): Res<string> {
    if Starts(p, s) then Many(p, s) else Err(s)
  }

  function Space(s: string): (r: Res<()>)
    ensures r.Ok? && |r.rest| <= |s| && !Starts(IsSpace, r.rest)
  {
    Ok((), Many(IsSpace, s).rest)
  }

  function Space1(s: string): Res<()> {
    if Starts(IsSpace, s) then Space(s) else Err(s)
  }

  function Eol(s: string): Res<()> { Or(s, Char('\n', s), Str("\r\n", s)) }

  // The text of a run of class p is taken whole when what follows does not extend the run.
  lemma {:induction false} ManyRun(p: char -> bool, w: string, k: string)
    requires All(p, w) && !Starts(p, k)
    ensures Many(p, w + k) == Ok(w, k)
  {
    if w == "" {
      assert w + k == k;
    } else {
      ManyRun(p, w[1..], k);
      assert (w + k)[1..] == w[1..] + k;
      assert [w[0]] + w[1..] == w;
    }
  }

  lemma StrHere(w: string, k: string)
    ensures w <= w + k && Str(w, w + k) == Ok((), k)
  {
    assert (w + k)[|w|..] == k;
  }

  lemma SpaceRun(w: string, k: string)
    requires All(IsSpace, w) && !Starts(IsSpace, k)
    ensures Space(w + k) == Ok((), k)
  {
    ManyRun(IsSpace, w, k);
  }

  lemma SpaceNone(k: string)
    requires !Starts(IsSpace, k)
    ensures Space(k) == Ok((), k)
  {
  }

  lemma SomeRun(p: char -> bool, w: string, k: string)
    requires w != "" && All(p, w) && !Starts(p, k)
    ensures Some1(p, w + k) == Ok(w, k)
  {
    ManyRun(p, w, k);
    assert (w + k)[0] == w[0];
  }

  // After white space has been skipped no line end can follow: the reason why the
  // "space >> eol" alternatives of the header parser are dead.
  lemma NoEolAfterSpace(s: string)
    ensures Eol(Space(s).rest) == Err(Space(s).rest)
  {
    var k := Space(s).rest;
    assert !("\r\n" <= k);
  }
}
