/** Bytes and the ASCII codes that the other modules name. */
module Bytes {
  type Byte = b: int | 0 <= b < 256

  const NUL: Byte := 0
  const TAB: Byte := 9
  const LF: Byte := 10
  const CR: Byte := 13
  const SPACE: Byte := 32
  const DQUOTE: Byte := 34
  const SHARP: Byte := 35
  const DOLLAR: Byte := 36
  const PERCENT: Byte := 37
  const SQUOTE: Byte := 39
  const RPAREN: Byte := 41
  const STAR: Byte := 42
  const MINUS: Byte := 45
  const DOT: Byte := 46
  const ZERO: Byte := 48
  const NINE: Byte := 57
  const SEMICOLON: Byte := 59
  const BACKSLASH: Byte := 92
  const LBRACE: Byte := 123
  const RBRACE: Byte := 125

  predicate IsDigit(b: Byte) {
    ZERO <= b <= NINE
  }

  /** The file, or any text, has s at position p. */
  ghost predicate Has(file: seq<Byte>, p: nat, s: seq<Byte>) {
    p + |s| <= |file| && file[p..p + |s|] == s
  }

  lemma Pieces(file: seq<Byte>, p: nat, a: seq<Byte>, b: seq<Byte>)
    requires Has(file, p, a + b)
    ensures Has(file, p, a) && Has(file, p + |a|, b)
  {
    assert file[p..p + |a|] == (a + b)[..|a|];
    assert file[p + |a|..p + |a| + |b|] == (a + b)[|a|..];
  }
}
