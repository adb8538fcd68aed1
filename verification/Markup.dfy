// The in-place string scanners of types/th/src/bindings.dsl.h: bc_word and bc_typemarkup.
module Markup {
  import opened Options

  predicate IsBlank(c: char) { c == ' ' || c == '\t' }

  predicate AllBlank(s: string) { forall i | 0 <= i < |s| :: IsBlank(s[i]) }

  // A string without NUL, as C can hold it.
  predicate IsCString(s: string) { '\0' !in s }

  // ---- specification ----

  // s[i..j], or nothing when there is no such part.
  function Slice(s: string, i: nat, j: nat): string
    decreases j - i
  {
    if i < j <= |s| then [s[i]] + Slice(s, i + 1, j) else ""
  }

  lemma {:induction false} SliceIs(s: string, i: nat, j: nat)
    requires i <= j <= |s|
    ensures Slice(s, i, j) == s[i..j]
    decreases j - i
  {
    if i < j {
      SliceIs(s, i + 1, j);
      assert s[i..j] == [s[i]] + s[i + 1..j];
    }
  }

  // The end of s[..n] without its trailing blanks.
  function TrimEnd(s: string, n: nat): (e: nat)
    requires n <= |s|
    ensures e <= n
  {
    if n > 0 && IsBlank(s[n - 1]) then TrimEnd(s, n - 1) else n
  }

  // Where the nonblank characters in front of position n begin.
  function WordStart(s: string, n: nat): (b: nat)
    requires n <= |s|
    ensures b <= n
  {
    if n > 0 && !IsBlank(s[n - 1]) then WordStart(s, n - 1) else n
  }

  // The last blank-separated word of s.
  function LastWord(s: string): string {
    var e := TrimEnd(s, |s|);
    Slice(s, WordStart(s, e), e)
  }

  // The constructor for a bracketed name; nothing for an empty one.  A name of blanks only is not
  // allowed: strtok finds no token in it.
  function Conid(name: string): Option<string> {
    if name == "" then Some("") else if AllBlank(name) then None else Some("C'" + LastWord(name))
  }

  function Join(text: string, con: Option<string>, rest: Option<string>): Option<string> {
    if con.Some? && rest.Some? then Some(text + con.value + rest.value) else None
  }

  // The first position of c in s from i on, or the length of s.
  function Find(c: char, s: string, i: nat): (r: nat)
    requires i <= |s|
    ensures i <= r <= |s|
    decreases |s| - i
  {
    if i == |s| || s[i] == c then i else Find(c, s, i + 1)
  }

  // The position behind j, if there is one.
  function Behind(s: string, j: nat): (r: nat)
    requires j <= |s|
    ensures j <= r <= |s|
  {
    if j < |s| then j + 1 else j
  }

  // From position p on: text outside angle brackets is kept; a bracketed name becomes a constructor.
  function RewriteFrom(s: string, p: nat): Option<string>
    requires p <= |s|
    decreases |s| - p
  {
    var i := Find('<', s, p);
    if i == |s| then Some(Slice(s, p, |s|))
    else
      OpenBeforeClose(s, p);
      var j := Find('>', s, i);
      Join(Slice(s, p, i), Conid(Slice(s, i + 1, j)), RewriteFrom(s, Behind(s, j)))
  }

  function Rewrite(s: string): Option<string> { RewriteFrom(s, 0) }

  lemma {:induction false} FindFacts(c: char, s: string, i: nat)
    requires i <= |s|
    ensures var r := Find(c, s, i); (forall k | i <= k < r :: s[k] != c) && (r < |s| ==> s[r] == c)
    decreases |s| - i
  {
    if i < |s| && s[i] != c { FindFacts(c, s, i + 1); }
  }

  // A closing bracket is searched from the opening one and lies behind it.
  lemma OpenBeforeClose(s: string, p: nat)
    requires p <= |s|
    ensures var i := Find('<', s, p); i < |s| ==> i < Find('>', s, i)
  {
    FindFacts('<', s, p);
  }

  // ---- what the specification means ----

  lemma {:induction false} TrimEndOf(s: string, m: nat, n: nat)
    requires m <= n <= |s| && (m == 0 || !IsBlank(s[m - 1])) && forall k | m <= k < n :: IsBlank(s[k])
    ensures TrimEnd(s, n) == m
  {
    if m < n { TrimEndOf(s, m, n - 1); }
  }

  lemma {:induction false} WordStartOf(s: string, m: nat, n: nat)
    requires m <= n <= |s| && (m == 0 || IsBlank(s[m - 1])) && forall k | m <= k < n :: !IsBlank(s[k])
    ensures WordStart(s, n) == m
  {
    if m < n { WordStartOf(s, m, n - 1); }
  }

  // The last word is the one that only blanks follow.
  lemma LastWordOf(a: string, w: string, b: string)
    requires a == "" || IsBlank(a[|a| - 1])
    requires w != "" && forall i | 0 <= i < |w| :: !IsBlank(w[i])
    requires AllBlank(b)
    ensures LastWord(a + w + b) == w
  {
    var s, m, n := a + w + b, |a|, |a| + |w|;
    TrimEndOf(s, n, |s|);
    WordStartOf(s, m, n);
    assert s[m..n] == w;
    SliceIs(s, m, n);
  }

  // One round of the rewriting, with the brackets at i and j.
  lemma Unfold(s: string, p: nat, i: nat, j: nat, r: nat)
    requires p <= |s| && i == Find('<', s, p) && j == Find('>', s, i) && r == Behind(s, j)
    ensures i == |s| ==> RewriteFrom(s, p) == Some(Slice(s, p, |s|))
    ensures i < |s| ==> i < j && RewriteFrom(s, p) == Join(Slice(s, p, i), Conid(Slice(s, i + 1, j)), RewriteFrom(s, r))
  {
    OpenBeforeClose(s, p);
  }

  // A marked-up text: pieces of text with a bracketed name behind each, and a last piece, behind which
  // a bracket may still be open.
  datatype Piece = Piece(text: string, name: string)

  datatype Tail = Plain(text: string) | Unclosed(text: string, name: string)

  predicate FitsPiece(p: Piece) { '<' !in p.text && '>' !in p.name }

  predicate FitsTail(t: Tail) { '<' !in t.text && (t.Unclosed? ==> '>' !in t.name) }

  function Source(ps: seq<Piece>, t: Tail): string {
    if ps != [] then ps[0].text + ("<" + (ps[0].name + (">" + Source(ps[1..], t))))
    else if t.Plain? then t.text
    else t.text + ("<" + t.name)
  }

  function Target(ps: seq<Piece>, t: Tail): Option<string> {
    if ps != [] then Join(ps[0].text, Conid(ps[0].name), Target(ps[1..], t))
    else if t.Plain? then Some(t.text)
    else Join(t.text, Conid(t.name), Some(""))
  }

  // The text at position p begins with a and goes on with k.
  lemma Covers(s: string, p: nat, a: string, k: string)
    requires p <= |s| && s[p..] == a + k
    ensures p + |a| <= |s| && s[p + |a|..] == k && Slice(s, p, p + |a|) == a
    ensures forall x | p <= x < p + |a| :: s[x] == a[x - p]
  {
    var u := s[p..];
    forall x | p <= x < p + |a| ensures s[x] == a[x - p] { assert s[x] == u[x - p]; }
    SliceIs(s, p, p + |a|);
    assert s[p..p + |a|] == u[..|a|] == a;
    assert s[p + |a|..] == u[|a|..] == k;
  }

  // Where the brackets of the next piece are.
  lemma PieceAt(s: string, p: nat, a: string, name: string, k: string)
    requires p <= |s| && s[p..] == a + ("<" + (name + (">" + k))) && '<' !in a && '>' !in name
    ensures var i, j := p + |a|, p + |a| + 1 + |name|;
      && j < |s| && i == Find('<', s, p) && j == Find('>', s, i)
      && Slice(s, p, i) == a && Slice(s, i + 1, j) == name && s[j + 1..] == k
  {
    var i, j := p + |a|, p + |a| + 1 + |name|;
    Covers(s, p, a, "<" + (name + (">" + k)));
    Covers(s, i, "<", name + (">" + k));
    Covers(s, i + 1, name, ">" + k);
    Covers(s, j, ">", k);
    FindAt('<', s, p, i);
    FindAt('>', s, i, j);
  }

  lemma TailAt(s: string, p: nat, t: Tail)
    requires p <= |s| && s[p..] == Source([], t) && FitsTail(t)
    ensures var i := if t.Plain? then |s| else p + |t.text|;
      && i == Find('<', s, p) && |s| == Find('>', s, i) && Slice(s, p, i) == t.text
      && (t.Unclosed? ==> i < |s| && Slice(s, i + 1, |s|) == t.name)
  {
    hide Slice, Find;
    var i := p + |t.text|;
    if t.Plain? {
      assert s[p..] == t.text + "";
      Covers(s, p, t.text, "");
      FindNone('<', s, p);
    } else {
      Covers(s, p, t.text, "<" + t.name);
      Covers(s, i, "<", t.name);
      assert s[i + 1..] == t.name + "";
      Covers(s, i + 1, t.name, "");
      FindAt('<', s, p, i);
    }
    FindNone('>', s, i);
  }

  lemma {:induction false} FindNone(c: char, s: string, i: nat)
    requires i <= |s| && forall k | i <= k < |s| :: s[k] != c
    ensures Find(c, s, i) == |s|
    decreases |s| - i
  {
    if i < |s| { FindNone(c, s, i + 1); }
  }

  lemma RewriteEnd(s: string)
    ensures RewriteFrom(s, |s|) == Some("")
  {
    Unfold(s, |s|, |s|, |s|, |s|);
  }

  lemma RewriteTail(s: string, p: nat, t: Tail)
    requires p <= |s| && s[p..] == Source([], t) && FitsTail(t)
    ensures RewriteFrom(s, p) == Target([], t)
  {
    TailAt(s, p, t);
    Unfold(s, p, Find('<', s, p), |s|, |s|);
    RewriteEnd(s);
  }

  lemma RewritePiece(s: string, p: nat, a: string, name: string, k: string) returns (q: nat)
    requires p <= |s| && s[p..] == a + ("<" + (name + (">" + k))) && '<' !in a && '>' !in name
    ensures q <= |s| && s[q..] == k && RewriteFrom(s, p) == Join(a, Conid(name), RewriteFrom(s, q))
  {
    hide Find, RewriteFrom, Conid, Slice, Join;
    PieceAt(s, p, a, name, k);
    q := p + |a| + |name| + 2;
    Unfold(s, p, p + |a|, q - 1, q);
  }

  lemma {:induction false} RewritePieces(s: string, p: nat, ps: seq<Piece>, t: Tail)
    requires p <= |s| && s[p..] == Source(ps, t) && FitsTail(t) && forall q | q in ps :: FitsPiece(q)
    ensures RewriteFrom(s, p) == Target(ps, t)
    decreases |ps|
  {
    if ps == [] {
      RewriteTail(s, p, t);
    } else {
      assert FitsPiece(ps[0]);
      var q := RewritePiece(s, p, ps[0].text, ps[0].name, Source(ps[1..], t));
      RewritePieces(s, q, ps[1..], t);
    }
  }

  // The meaning of the scan: text is copied and every bracketed name is replaced by its constructor.
  lemma RewriteMeans(ps: seq<Piece>, t: Tail)
    requires FitsTail(t) && forall q | q in ps :: FitsPiece(q)
    ensures Rewrite(Source(ps, t)) == Target(ps, t)
  {
    var s := Source(ps, t);
    assert s[0..] == s;
    RewritePieces(s, 0, ps, t);
  }

  // A text up to its first bracket, a name up to the next closing one, and the rest.
  lemma FirstBracket(s: string) returns (text: string, name: string, rest: string, open: bool, closed: bool)
    ensures '<' !in text && '>' !in name && (closed ==> open)
    ensures s == if !open then text else if !closed then text + ("<" + name) else text + ("<" + (name + (">" + rest)))
  {
    hide Find;
    var i := Find('<', s, 0);
    FindFacts('<', s, 0);
    OpenBeforeClose(s, 0);
    text, name, rest, open, closed := s[..i], "", "", i < |s|, false;
    if open {
      var j := Find('>', s, i);
      FindFacts('>', s, i);
      closed, name := j < |s|, s[i + 1..j];
      if closed { rest := s[j + 1..]; }
    }
  }

  // Every text falls into pieces and a tail.
  lemma {:induction false} Decompose(s: string) returns (ps: seq<Piece>, t: Tail)
    ensures FitsTail(t) && (forall q | q in ps :: FitsPiece(q)) && Source(ps, t) == s
    decreases |s|
  {
    var text, name, rest, open, closed := FirstBracket(s);
    ps := [];
    if !open {
      t := Plain(text);
    } else if !closed {
      t := Unclosed(text, name);
    } else {
      var qs;
      qs, t := Decompose(rest);
      ps := [Piece(text, name)] + qs;
      assert ps[1..] == qs;
    }
  }

  // A bracketed name is empty or contains a non-blank.
  predicate Named(name: string) { name == "" || !AllBlank(name) }

  predicate AllNamed(ps: seq<Piece>, t: Tail) {
    (forall q | q in ps :: Named(q.name)) && (t.Unclosed? ==> Named(t.name))
  }

  lemma {:induction false} TargetDefined(ps: seq<Piece>, t: Tail)
    ensures Target(ps, t).Some? <==> AllNamed(ps, t)
  {
    if ps != [] {
      TargetDefined(ps[1..], t);
      assert forall q :: q in ps <==> q == ps[0] || q in ps[1..];
    }
  }

  // The rewriting in terms of the characters of the text.  Text without an opening bracket is kept.
  lemma RewritePlain(text: string)
    requires '<' !in text
    ensures Rewrite(text) == Some(text)
  {
    RewriteMeans([], Plain(text));
  }

  // A bracketed name, here a + w + b with the last word w, becomes C'w, and the rest is rewritten likewise.
  lemma RewriteBracket(text: string, a: string, w: string, b: string, rest: string)
    requires '<' !in text && '>' !in a + w + b && (a == "" || IsBlank(a[|a| - 1]))
    requires w != "" && AllBlank(b) && forall i | 0 <= i < |w| :: !IsBlank(w[i])
    ensures var s := text + ("<" + ((a + w + b) + (">" + rest)));
      && (Rewrite(s).Some? <==> Rewrite(rest).Some?)
      && (Rewrite(rest).Some? ==> Rewrite(s).value == text + "C'" + w + Rewrite(rest).value)
  {
    var name := a + w + b;
    BracketRewritten(text, name, rest);
    assert name[|a|] == w[0];
    LastWordOf(a, w, b);
    Prefixed(text, "C'", w);
  }

  lemma BracketRewritten(text: string, name: string, rest: string)
    requires '<' !in text && '>' !in name
    ensures Rewrite(text + ("<" + (name + (">" + rest)))) == Join(text, Conid(name), Rewrite(rest))
  {
    var ps, t := Decompose(rest);
    var qs := [Piece(text, name)] + ps;
    assert qs[1..] == ps;
    RewriteMeans(ps, t);
    RewriteMeans(qs, t);
  }

  // Empty brackets are dropped.
  lemma RewriteEmpty(text: string, rest: string)
    requires '<' !in text
    ensures var s := text + ("<" + ("" + (">" + rest)));
      && (Rewrite(s).Some? <==> Rewrite(rest).Some?)
      && (Rewrite(rest).Some? ==> Rewrite(s).value == text + Rewrite(rest).value)
  {
    BracketRewritten(text, "", rest);
    assert text + "" == text;
  }

  // A name whose bracket is never closed ends the text.
  lemma RewriteOpen(text: string, a: string, w: string, b: string)
    requires '<' !in text && '>' !in a + w + b && (a == "" || IsBlank(a[|a| - 1]))
    requires w != "" && AllBlank(b) && forall i | 0 <= i < |w| :: !IsBlank(w[i])
    ensures Rewrite(text + ("<" + (a + w + b))) == Some(text + "C'" + w)
  {
    var name := a + w + b;
    RewriteMeans([], Unclosed(text, name));
    assert name[|a|] == w[0];
    LastWordOf(a, w, b);
    assert text + ("C'" + w) + "" == text + "C'" + w;
  }

  // The rewriting of any text: it is defined exactly when every bracketed name is empty or contains a
  // non-blank.
  lemma RewriteOfAny(s: string) returns (ps: seq<Piece>, t: Tail)
    ensures FitsTail(t) && (forall q | q in ps :: FitsPiece(q)) && Source(ps, t) == s
    ensures Rewrite(s) == Target(ps, t) && (Rewrite(s).Some? <==> AllNamed(ps, t))
  {
    ps, t := Decompose(s);
    RewriteMeans(ps, t);
    TargetDefined(ps, t);
  }

  lemma {:induction false} FindAt(c: char, s: string, i: nat, j: nat)
    requires i <= j < |s| && s[j] == c && forall k | i <= k < j :: s[k] != c
    ensures Find(c, s, i) == j
    decreases j - i
  {
    if i < j { FindAt(c, s, i + 1, j); }
  }

  // ---- the C buffers ----

  // The string that starts at position p of a buffer.
  function CString(b: seq<char>, p: nat): (s: string)
    requires p <= |b|
    ensures IsCString(s)
    decreases |b| - p
  {
    if p == |b| || b[p] == '\0' then "" else [b[p]] + CString(b, p + 1)
  }

  lemma {:induction false} CStringIs(b: seq<char>, p: nat, e: nat)
    requires p <= e < |b| && b[e] == '\0' && '\0' !in b[p..e]
    ensures CString(b, p) == b[p..e]
    decreases e - p
  {
    if p < e {
      assert b[p] == b[p..e][0];
      assert b[p..e][1..] == b[p + 1..e];
      CStringIs(b, p + 1, e);
      assert b[p..e] == [b[p]] + b[p + 1..e];
    }
  }

  // A buffer just large enough for the string and its NUL, holding both.
  method CopyOf(name: string) returns (b: array<char>)
    ensures fresh(b) && b[..] == name + ['\0']
  {
    b := new char[|name| + 1](i requires 0 <= i <= |name| => if i < |name| then name[i] else '\0');
    assert b[..] == name + ['\0'];
  }

  // The buffer from position k on still holds the end of the name.
  ghost predicate Intact(b: seq<char>, name: string, k: nat) {
    && |b| == |name| + 1 && k <= |name| && b[|name|] == '\0'
    && forall i | k <= i < |name| :: b[i] == name[i] && b[i] != '\0'
  }

  predicate Blanks(s: string, i: nat, j: nat)
    requires i <= j <= |s|
  {
    forall k | i <= k < j :: IsBlank(s[k])
  }

  predicate Solid(s: string, i: nat, j: nat)
    requires i <= j <= |s|
  {
    forall k | i <= k < j :: !IsBlank(s[k])
  }

  // name[p..e] is the first token from position save on, and next is where the scan goes on.
  predicate IsToken(name: string, save: nat, p: nat, e: nat, next: nat) {
    && save <= p < e <= |name| && Blanks(name, save, p) && Solid(name, p, e)
    && (e < |name| ==> IsBlank(name[e])) && next == (if e < |name| then e + 1 else e)
  }

  // strtok with the delimiters blank and tab, section 7.24.5.8 of ISO C11: skip delimiters, return the
  // start of the token, overwrite the delimiter behind it and remember where to go on.
  method StrTok(b: array<char>, ghost name: string, save: nat) returns (found: bool, p: nat, ghost e: nat, next: nat)
    requires Intact(b[..], name, save)
    modifies b
    ensures !found ==> Blanks(name, save, |name|) && b[..] == old(b[..])
    ensures found ==> IsToken(name, save, p, e, next) && b[..] == old(b[..])[e := '\0']
  {
    p := save;
    while b[p] == ' ' || b[p] == '\t'
      invariant save <= p <= |name| && Blanks(name, save, p) && b[..] == old(b[..])
      invariant Intact(b[..], name, p) && (b[p] == '\0' <==> p == |name|)
      decreases |name| - p
    {
      p := p + 1;
    }
    next, e := p, p;
    if b[p] == '\0' { return false, p, p, p; }
    while b[next] != '\0' && b[next] != ' ' && b[next] != '\t'
      invariant p <= next <= |name| && Solid(name, p, next) && b[..] == old(b[..])
      invariant Intact(b[..], name, next) && (b[next] == '\0' <==> next == |name|)
      decreases |name| - next
    {
      next := next + 1;
    }
    e := next;
    if b[next] != '\0' {
      b[next] := '\0';
      next := next + 1;
    }
    found := true;
  }

  // The token name[p..e] has been cut out of the buffer and the scan goes on at next.
  ghost predicate Cut(b: seq<char>, name: string, p: nat, e: nat, next: nat) {
    && IsToken(name, p, p, e, next) && (p == 0 || IsBlank(name[p - 1])) && Intact(b, name, next)
    && b[e] == '\0' && forall i | p <= i < e :: b[i] == name[i] && b[i] != '\0'
  }

  // The last word is what has been cut once only blanks are left.
  lemma CutIsLast(b: seq<char>, name: string, p: nat, e: nat, next: nat)
    requires Cut(b, name, p, e, next) && Blanks(name, next, |name|)
    ensures CString(b, p) == LastWord(name)
  {
    CStringIs(b, p, e);
    var a, w, r := name[..p], name[p..e], name[e..];
    SliceIs(name, p, e);
    assert b[p..e] == w;
    assert name == a + w + r;
    LastWordOf(a, w, r);
  }

  // The first cut, and every later one.
  lemma CutFirst(b: seq<char>, name: string, p: nat, e: nat, next: nat)
    requires Intact(b, name, 0) && IsToken(name, 0, p, e, next)
    ensures Cut(b[e := '\0'], name, p, e, next)
  {
  }

  lemma CutNext(b: seq<char>, name: string, p: nat, e: nat, save: nat, q: nat, f: nat, next: nat)
    requires Cut(b, name, p, e, save) && IsToken(name, save, q, f, next)
    ensures f < |b| && Cut(b[f := '\0'], name, q, f, next) && save < next
  {
  }

  lemma CutIntact(b: seq<char>, name: string, p: nat, e: nat, next: nat)
    requires Cut(b, name, p, e, next)
    ensures Intact(b, name, next) && p < e <= |name|
  {
  }

  method BcWord(name: string) returns (out: string)
    requires IsCString(name) && !AllBlank(name)
    ensures out == LastWord(name)
  {
    hide CString, LastWord, Cut;
    var b := CopyOf(name);
    ghost var e: nat, f: nat;
    var found, p: nat, q: nat, save: nat, next: nat;
    found, p, e, save := StrTok(b, name, 0);
    CutFirst(name + ['\0'], name, p, e, save);
    CutIntact(b[..], name, p, e, save);
    ghost var before := b[..];
    found, q, f, next := StrTok(b, name, save);
    while found
      invariant Cut(before, name, p, e, save) && Intact(before, name, save) && p < |name|
      invariant found ==> f < |before|
      invariant if found then IsToken(name, save, q, f, next) && b[..] == before[f := '\0']
                else b[..] == before && Blanks(name, save, |name|)
      decreases |name| - save
    {
      CutNext(before, name, p, e, save, q, f, next);
      p, e, save := q, f, next;
      before := b[..];
      CutIntact(before, name, p, e, save);
      found, q, f, next := StrTok(b, name, save);
    }
    CutIsLast(b[..], name, p, e, save);
    out := CString(b[..], p);
  }

  // ---- bc_typemarkup ----

  // The scan to the next '<' or '>', or the end.
  method ScanTo(c: char, b: array<char>, ghost name: string, p: nat) returns (r: nat)
    requires c != '\0' && Intact(b[..], name, p)
    ensures r == Find(c, name, p)
  {
    r := p;
    while b[r] != '\0' && b[r] != c
      invariant p <= r <= |name| && Find(c, name, p) == Find(c, name, r)
      invariant b[r] == '\0' <==> r == |name|
      decreases |name| - r
    {
      r := r + 1;
    }
  }

  // What the two NUL bytes of a round leave readable in the buffer, with the pointers p2 and p3 at i, j.
  lemma RoundBuffer(b: seq<char>, name: string, p1: nat, i: nat, j: nat, c: seq<char>)
    requires p1 <= i <= j <= |name| && Intact(b, name, p1) && c == b[i := '\0'][j := '\0']
    requires i < |name| ==> i < j
    ensures CString(c, p1) == Slice(name, p1, i) && Intact(c, name, Behind(name, j))
    ensures i < |name| ==> CString(c, i + 1) == Slice(name, i + 1, j) && (c[i + 1] == '\0' <==> i + 1 == j)
  {
    CStringIs(c, p1, i);
    SliceIs(name, p1, i);
    assert c[p1..i] == name[p1..i];
    if i < |name| {
      CStringIs(c, i + 1, j);
      SliceIs(name, i + 1, j);
      assert c[i + 1..j] == name[i + 1..j];
    }
  }

  method BcTypemarkup(name: string) returns (out: string)
    requires IsCString(name) && Rewrite(name).Some?
    ensures Rewrite(name) == Some(out)
  {
    var b := CopyOf(name);
    var p1 := 0;
    out := "";
    while b[p1] != '\0'
      invariant p1 <= |name| && Intact(b[..], name, p1) && (b[p1] == '\0' <==> p1 == |name|)
      invariant RewriteFrom(name, p1).Some? && Rewrite(name).value == out + RewriteFrom(name, p1).value
      decreases |name| - p1
    {
      var text, p3 := Round(b, name, p1);
      Prefixed(out, text, RewriteFrom(name, p3).value);
      out := out + text;
      p1 := p3;
    }
    RewriteEnd(name);
    assert out + "" == out;
  }

  lemma Prefixed(a: string, b: string, c: string)
    ensures a + (b + c) == a + b + c
  {
  }

  // The loop body: the text up to the next bracketed name, and the name.
  method Round(b: array<char>, ghost name: string, p1: nat) returns (out: string, p3: nat)
    requires p1 < |name| && Intact(b[..], name, p1) && RewriteFrom(name, p1).Some?
    modifies b
    ensures p1 < p3 <= |name| && Intact(b[..], name, p3) && RewriteFrom(name, p3).Some?
    ensures RewriteFrom(name, p1).value == out + RewriteFrom(name, p3).value
  {
    var p2;
    ghost var i, j;
    p2, p3, i, j := Split(b, name, p1);
    Unfold(name, p1, i, j, p3);
    RewriteEnd(name);
    out := CString(b[..], p1);
    if b[p2] != '\0' {
      var word := BcConid(CString(b[..], p2));
      out := out + word;
    }
  }

  // The two scans, and the NUL bytes that end the text and the name.
  method Split(b: array<char>, ghost name: string, p1: nat) returns (p2: nat, p3: nat, ghost i: nat, ghost j: nat)
    requires p1 < |name| && Intact(b[..], name, p1)
    modifies b
    ensures i == Find('<', name, p1) && j == Find('>', name, i) && p3 == Behind(name, j) && p1 < p3
    ensures p2 == (if i < |name| then i + 1 else i) && Intact(b[..], name, p3)
    ensures CString(b[..], p1) == Slice(name, p1, i)
    ensures i < |name| ==> CString(b[..], p2) == Slice(name, p2, j)
    ensures b[p2] == '\0' <==> i == |name| || p2 == j
  {
    ghost var before := b[..];
    p2 := ScanTo('<', b, name, p1);
    p3 := ScanTo('>', b, name, p2);
    i, j := p2, p3;
    OpenBeforeClose(name, p1);
    FindFacts('<', name, p1);
    FindFacts('>', name, i);
    if b[p2] == '<' { b[p2] := '\0'; p2 := p2 + 1; }
    if b[p3] == '>' { b[p3] := '\0'; p3 := p3 + 1; }
    assert b[..] == before[i := '\0'][j := '\0'];
    RoundBuffer(before, name, p1, i, j, b[..]);
  }

  // bc_conid, applied to a part of the buffered string.
  method BcConid(word: string) returns (out: string)
    requires IsCString(word) && !AllBlank(word)
    ensures Conid(word) == Some(out) && out == "C'" + LastWord(word)
  {
    var w := BcWord(word);
    out := "C'" + w;
  }
}
