/** What the formatter of src/ca_string.c produces when there is room for all of it. */
module Format {
  import opened Bytes
  import opened Power
  import opened Wrappers

  const TWO32: nat := 0x1_0000_0000
  const TWO63: nat := 0x8000_0000_0000_0000
  const TWO64: nat := 0x1_0000_0000_0000_0000

  // --- numbers -----------------------------------------------------------------------------

  datatype Radix = Dec | HexLower | HexUpper

  function Base(r: Radix): (b: nat)
    ensures b == 10 || b == 16
  {
    if r == Dec then 10 else 16
  }

  function Digit(d: nat, r: Radix): Byte
    requires d < Base(r)
  {
    if d < 10 then ZERO + d else (if r == HexLower then 'a' as int else 'A' as int) + d - 10
  }

  /** The digits of n, most significant first, without leading zeros. */
  function Digits(n: nat, r: Radix): (s: seq<Byte>)
    ensures s != []
    decreases n
  {
    if n < Base(r) then [Digit(n, r)] else Digits(n / Base(r), r) + [Digit(n % Base(r), r)]
  }

  function Repeat(b: Byte, n: nat): (s: seq<Byte>)
    ensures |s| == n
  {
    seq(n, _ => b)
  }

  /** Padding on the left up to the width. */
  function Padded(zero: Byte, width: nat, digits: seq<Byte>): (s: seq<Byte>)
    ensures |s| == if |digits| < width then width else |digits|
  {
    if |digits| < width then Repeat(zero, width - |digits|) + digits else digits
  }

  // --- conversions -------------------------------------------------------------------------

  /** The variable arguments. Text stands for a pointer to bytes that a NUL follows. */
  datatype Arg = Signed(i: int) | Unsigned(u: nat) | Text(bytes: seq<Byte>) | Str(str: seq<Byte>) | Size(n: nat)

  /** The settings between '%' and the conversion character. */
  datatype Conv = Conv(zero: Byte, width: nat, sign: bool, radix: Radix, slen: nat)

  const UNBOUNDED: nat := TWO64 - 1

  function CString(s: seq<Byte>): seq<Byte> {
    if s == [] || s[0] == NUL then [] else [s[0]] + CString(s[1..])
  }

  /** A run of digits, as a 32-bit unsigned number that wraps. */
  function Width(fmt: seq<Byte>, i: nat, w: nat): (r: (nat, nat))
    requires i <= |fmt|
    ensures i <= r.1 <= |fmt|
    decreases |fmt| - i
  {
    if i < |fmt| && IsDigit(fmt[i]) then Width(fmt, i + 1, (w * 10 + (fmt[i] - ZERO)) % TWO32)
    else (w, i)
  }

  /** The flags, up to the conversion character; None if an argument is missing or wrong. */
  function Settings(fmt: seq<Byte>, i: nat, c: Conv, args: seq<Arg>): (r: Option<(Conv, nat, seq<Arg>)>)
    requires i <= |fmt|
    ensures r.Some? ==> i <= r.value.1 <= |fmt|
    decreases |fmt| - i
  {
    if i == |fmt| then Some((c, i, args))
    else if fmt[i] == 'u' as int then Settings(fmt, i + 1, c.(sign := false), args)
    else if fmt[i] == 'm' as int then Settings(fmt, i + 1, c, args)
    else if fmt[i] == 'X' as int then Settings(fmt, i + 1, c.(sign := false, radix := HexUpper), args)
    else if fmt[i] == 'x' as int then Settings(fmt, i + 1, c.(sign := false, radix := HexLower), args)
    else if fmt[i] == STAR then
      if args != [] && args[0].Size? && args[0].n < TWO64
      then Settings(fmt, i + 1, c.(slen := args[0].n), args[1..]) else None
    else if fmt[i] == DOT then Some((c, Width(fmt, i + 1, 0).1, args))
    else Some((c, i, args))
  }

  predicate FitsSigned(i: int, half: int) {
    -half <= i < half
  }

  /** The 64-bit value an integer conversion takes: its sign and magnitude. */
  function Integer(ch: Byte, c: Conv, args: seq<Arg>): Option<(bool, nat)> {
    if args == [] then None
    else if ch == 'O' as int || ch == 'T' as int || ch == 'r' as int then TakeSigned(args[0], TWO63)
    else if ch == 'z' as int || ch == 'l' as int || ch == 'L' as int then
      if c.sign then TakeSigned(args[0], TWO63) else TakeUnsigned(args[0], TWO64)
    else if ch == 'd' as int || ch == 'D' as int then
      if c.sign then TakeSigned(args[0], TWO32 / 2) else TakeUnsigned(args[0], TWO32)
    else if ch == 'p' as int then TakeUnsigned(args[0], TWO64)
    else None
  }

  function TakeSigned(a: Arg, half: nat): Option<(bool, nat)> {
    if a.Signed? && FitsSigned(a.i, half) then Some((a.i < 0, if a.i < 0 then -a.i else a.i)) else None
  }

  function TakeUnsigned(a: Arg, limit: nat): Option<(bool, nat)> {
    if a.Unsigned? && a.u < limit then Some((false, a.u)) else None
  }

  predicate IsInteger(ch: Byte) {
    ch == 'O' as int || ch == 'T' as int || ch == 'r' as int || ch == 'z' as int || ch == 'l' as int
    || ch == 'L' as int || ch == 'd' as int || ch == 'D' as int || ch == 'p' as int
  }

  /** What one conversion character produces, and the arguments that are left. */
  function Piece(ch: Byte, c: Conv, args: seq<Arg>): Option<(seq<Byte>, seq<Arg>)> {
    if ch == 'V' as int then
      if args != [] && args[0].Str? then Some((args[0].str, args[1..])) else None
    else if ch == 's' as int then
      if args == [] || !args[0].Text? then None
      else if c.slen == UNBOUNDED then Some((CString(args[0].bytes), args[1..]))
      else if c.slen <= |args[0].bytes| then Some((args[0].bytes[..c.slen], args[1..]))
      else None
    else if IsInteger(ch) then
      match Integer(ch, c, args)
      case None => None
      case Some((negative, u)) => Some((NumberPiece(ch, c, negative, u), args[1..]))
    else if ch == 'f' as int then None
    else if ch == 'c' as int then
      if args != [] && args[0].Signed? then Some(([Low(args[0].i)], args[1..])) else None
    else if ch == 'Z' as int then Some(([NUL], args))
    else if ch == 'N' as int then Some(([LF], args))
    else Some(([ch], args))
  }

  function Low(i: int): Byte {
    i % 256
  }

  function NumberPiece(ch: Byte, c: Conv, negative: bool, u: nat): seq<Byte> {
    var digits := if ch == 'p' as int then Padded(ZERO, 16, Digits(u, HexUpper))
                  else Padded(c.zero, c.width, Digits(u, c.radix));
    if negative then [MINUS] + digits else digits
  }

  /** One conversion, from the character after '%' on. */
  function Convert(fmt: seq<Byte>, i: nat, args: seq<Arg>): (r: Option<(seq<Byte>, nat, seq<Arg>)>)
    requires i <= |fmt|
    ensures r.Some? ==> i < r.value.1 <= |fmt|
  {
    if i == |fmt| then None
    else
      var zero := if fmt[i] == ZERO then ZERO else SPACE;
      var (width, j) := Width(fmt, i, 0);
      match Settings(fmt, j, Conv(zero, width, true, Dec, UNBOUNDED), args)
      case None => None
      case Some((c, k, args')) =>
        if k == |fmt| then None
        else
          match Piece(fmt[k], c, args')
          case None => None
          case Some((piece, args'')) => Some((piece, k + 1, args''))
  }

  /** The whole output; None if the format ends in an unfinished conversion, asks for a
      floating-point number, or does not match the arguments. */
  function Full(fmt: seq<Byte>, i: nat, args: seq<Arg>): Option<seq<Byte>>
    requires i <= |fmt|
    decreases |fmt| - i
  {
    if i == |fmt| then Some([])
    else if fmt[i] != PERCENT then Prepend([fmt[i]], Full(fmt, i + 1, args))
    else
      match Convert(fmt, i + 1, args)
      case None => None
      case Some((piece, j, args')) => Prepend(piece, Full(fmt, j, args'))
  }

  function Prepend(piece: seq<Byte>, rest: Option<seq<Byte>>): Option<seq<Byte>> {
    if rest.Some? then Some(piece + rest.value) else None
  }

  // --- bounds on numbers -------------------------------------------------------------------

  lemma {:induction false} DigitsBound(n: nat, r: Radix, k: nat)
    requires 0 < k && n < Pow(Base(r), k)
    ensures |Digits(n, r)| <= k
    decreases k
  {
    assert Pow(Base(r), k) == Base(r) * Pow(Base(r), k - 1);
    if n >= Base(r) {
      assert k > 1;
      assert n / Base(r) < Pow(Base(r), k - 1);
      DigitsBound(n / Base(r), r, k - 1);
    }
  }

  lemma Powers()
    ensures Pow(10, 10) == 10000000000
    ensures Pow(10, 20) == 100000000000000000000
    ensures Pow(16, 16) == TWO64
  {
    assert Pow(10, 5) == 100000 by {
      assert Pow(10, 2) == 100;
    }
    PowAdd(10, 5, 5);
    PowAdd(10, 10, 10);
    assert Pow(16, 4) == 65536 by {
      assert Pow(16, 2) == 256;
    }
    PowAdd(16, 4, 4);
    PowAdd(16, 8, 8);
  }

  /** What a digit stands for; letters of either case count. */
  function DigitValue(b: Byte): nat {
    if IsDigit(b) then b - ZERO
    else if 'A' as int <= b <= 'F' as int then b - 'A' as int + 10
    else if 'a' as int <= b <= 'f' as int then b - 'a' as int + 10
    else 0
  }

  /** What a string of digits denotes in a base. */
  function Denoted(s: seq<Byte>, base: nat): nat {
    if s == [] then 0 else Denoted(s[..|s| - 1], base) * base + DigitValue(s[|s| - 1])
  }

  /** In every radix the digits denote the number, without a leading zero. */
  lemma {:induction false} DigitsDenote(n: nat, r: Radix)
    ensures Denoted(Digits(n, r), Base(r)) == n
    ensures n != 0 ==> Digits(n, r)[0] != ZERO
    decreases n
  {
    var d := Digit(n % Base(r), r);
    assert DigitValue(d) == n % Base(r);
    if n < Base(r) {
      assert [d][..0] == [] && Denoted([], Base(r)) == 0;
    } else {
      var front := Digits(n / Base(r), r);
      DigitsDenote(n / Base(r), r);
      assert (front + [d])[..|front|] == front;
    }
  }

  /** The digit buffer of 20 bytes is large enough for every 64-bit number. */
  lemma DigitsFit(n: nat, r: Radix)
    requires n < TWO64
    ensures |Digits(n, r)| <= 20
  {
    Powers();
    DigitsBound(n, r, if r == Dec then 20 else 16);
  }

  // --- what the plain conversions print ------------------------------------------------------

  /** A format that is one conversion and nothing else. */
  lemma OneConversion(fmt: seq<Byte>, args: seq<Arg>, piece: seq<Byte>)
    requires fmt != [] && fmt[0] == PERCENT && Convert(fmt, 1, args) == Some((piece, |fmt|, []))
    ensures Full(fmt, 0, args) == Some(piece)
  {
    hide Convert;
    var none: seq<Arg> := [];
    assert Full(fmt, |fmt|, none) == Some([]);
    assert Full(fmt, 0, args) == Prepend(piece, Full(fmt, |fmt|, none));
    assert piece + [] == piece;
  }

  /** "%l" prints the sign and the decimal digits of any 64-bit number, the smallest included. */
  lemma PrintsSigned(i: int)
    requires FitsSigned(i, TWO63)
    ensures Full([PERCENT, 'l' as int], 0, [Signed(i)])
         == Some(if i < 0 then [MINUS] + Digits(-i, Dec) else Digits(i, Dec))
  {
    hide Digits;
    var fmt: seq<Byte>, args := [PERCENT, 'l' as int], [Signed(i)];
    var c := Conv(SPACE, 0, true, Dec, UNBOUNDED);
    var piece := if i < 0 then [MINUS] + Digits(-i, Dec) else Digits(i, Dec);
    assert Width(fmt, 1, 0) == (0, 1);
    assert Settings(fmt, 1, c, args) == Some((c, 1, args));
    assert args[1..] == [];
    assert Piece('l' as int, c, args) == Some((piece, []));
    hide Piece, Settings, Width;
    OneConversion(fmt, args, piece);
  }

  /** "%xL" and "%XL" print the hexadecimal digits of any unsigned 64-bit number. */
  lemma PrintsHex(u: nat, upper: bool)
    requires u < TWO64
    ensures Full([PERCENT, if upper then 'X' as int else 'x' as int, 'L' as int], 0, [Unsigned(u)])
         == Some(Digits(u, if upper then HexUpper else HexLower))
  {
    hide Digits;
    var fmt: seq<Byte> := [PERCENT, if upper then 'X' as int else 'x' as int, 'L' as int];
    var args := [Unsigned(u)];
    var c0 := Conv(SPACE, 0, true, Dec, UNBOUNDED);
    var c := c0.(sign := false, radix := if upper then HexUpper else HexLower);
    assert Width(fmt, 1, 0) == (0, 1);
    assert Settings(fmt, 2, c, args) == Some((c, 2, args));
    assert Settings(fmt, 1, c0, args) == Settings(fmt, 2, c, args);
    assert args[1..] == [];
    assert Piece('L' as int, c, args) == Some((Digits(u, c.radix), []));
    hide Piece, Settings, Width;
    OneConversion(fmt, args, Digits(u, c.radix));
  }
}
