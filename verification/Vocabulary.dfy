// The characters and words that the parser knows, listed.
module Vocabulary {
  import opened Chars
  import opened Parsed
  import opened Parse
  import opened DeclRoundTrip

  lemma AsciiBlanks(c: char)
    requires c as int < 128
    ensures IsSpace(c) <==> c in {' ', '\t', '\n', 11 as char, 12 as char, '\r'}
  {
  }

  lemma LowerCase(c: char)
    ensures 'a' <= c <= 'z' <==> c in "abcdefghijklmnopqrstuvwxyz"
  {
    var s := "abcdefghijklmnopqrstuvwxyz";
    if 'a' <= c <= 'z' { assert s[c as int - 97] == c; }
  }

  lemma UpperCase(c: char)
    ensures 'A' <= c <= 'Z' <==> c in "ABCDEFGHIJKLMNOPQRSTUVWXYZ"
  {
    var s := "ABCDEFGHIJKLMNOPQRSTUVWXYZ";
    if 'A' <= c <= 'Z' { assert s[c as int - 65] == c; }
  }

  lemma Digit(c: char)
    ensures '0' <= c <= '9' <==> c in "0123456789"
  {
    var s := "0123456789";
    if '0' <= c <= '9' { assert s[c as int - 48] == c; }
  }

  // The ASCII characters of a name, and those of a comment.
  lemma AsciiNames(c: char)
    requires c as int < 128
    ensures IsIdent(c) <==>
      c in "abcdefghijklmnopqrstuvwxyz" || c in "ABCDEFGHIJKLMNOPQRSTUVWXYZ" || c in "0123456789" || c == '_'
    ensures IsCommentChar(c) <==> IsIdent(c) || c == ' '
  {
    LowerCase(c);
    UpperCase(c);
    Digit(c);
  }

  // A library has generic names if it is written TH, THC, THNN or THCUNN.
  lemma Libraries(l: LibType)
    ensures l in SUPPORTED_LIBS <==> ShowLib(l) in {"TH", "THC", "THNN", "THCUNN"}
  {
  }

  lemma Suffixes(x: string)
    ensures x in SUFFIXES <==> x in {"", "Tensor", "Blas", "Lapack", "Storage", "Vector"}
  {
  }
}
