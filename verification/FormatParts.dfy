/** Formats put together from literal text and conversions, and what they print: what ca_vslprintf of
    src/ca_string.c promises for each conversion, for any sequence of them. */
module FormatParts {
  import opened Bytes
  import opened Wrappers
  import opened Format
  import opened Numbers

  datatype Flag = NoFlag | Idle | AsUnsigned | AsHex | AsUpperHex

  /** What a conversion asks for, with its argument. */
  datatype Kind =
    | Word(word: seq<Byte>, more: seq<Byte>)
    | FirstOf(n: nat, bytes: seq<Byte>)
    | Counted(str: seq<Byte>)
    | Figure(letter: Byte, value: int)
    | Character(value: int)
    | Pointer(address: nat)
    | Newline
    | Zero
    | Itself(letter: Byte)

  datatype Part =
    | Literal(text: seq<Byte>)
    | Directive(width: seq<Byte>, flag: Flag, precision: Option<seq<Byte>>, kind: Kind)

  // --- how it is written ---------------------------------------------------------------------

  function FlagText(flag: Flag): seq<Byte> {
    match flag
    case NoFlag => []
    case Idle => ['m' as int]
    case AsUnsigned => ['u' as int]
    case AsHex => ['x' as int]
    case AsUpperHex => ['X' as int]
  }

  function Letter(kind: Kind): Byte {
    match kind
    case Word(_, _) => 's' as int
    case FirstOf(_, _) => 's' as int
    case Counted(_) => 'V' as int
    case Figure(letter, _) => letter
    case Character(_) => 'c' as int
    case Pointer(_) => 'p' as int
    case Newline => 'N' as int
    case Zero => 'Z' as int
    case Itself(letter) => letter
  }

  function StarText(kind: Kind): seq<Byte> {
    if kind.FirstOf? then ['*' as int] else []
  }

  function DotText(precision: Option<seq<Byte>>): seq<Byte> {
    if precision.Some? then ['.' as int] + precision.value else []
  }

  function Spelled(p: Part): seq<Byte> {
    match p
    case Literal(text) => text
    case Directive(width, flag, precision, kind) => ['%' as int] + (width + FlagsOn(flag, precision, kind))
  }

  function FlagsOn(flag: Flag, precision: Option<seq<Byte>>, kind: Kind): seq<Byte> {
    FlagText(flag) + StarOn(precision, kind)
  }

  function StarOn(precision: Option<seq<Byte>>, kind: Kind): seq<Byte> {
    StarText(kind) + DotOn(precision, kind)
  }

  function DotOn(precision: Option<seq<Byte>>, kind: Kind): seq<Byte> {
    DotText(precision) + [Letter(kind)]
  }

  function Written(ps: seq<Part>): seq<Byte> {
    if ps == [] then [] else Spelled(ps[0]) + Written(ps[1..])
  }

  predicate IsLong(letter: Byte) {
    letter == 'l' as int || letter == 'L' as int || letter == 'z' as int
  }

  predicate IsShort(letter: Byte) {
    letter == 'd' as int || letter == 'D' as int
  }

  predicate IsSigned(letter: Byte) {
    letter == 'O' as int || letter == 'T' as int || letter == 'r' as int
  }

  predicate KeepsSign(flag: Flag) {
    flag.NoFlag? || flag.Idle?
  }

  /** The numbers that the type named by the conversion can hold. */
  predicate InRange(flag: Flag, letter: Byte, value: int) {
    if IsSigned(letter) then -0x8000_0000_0000_0000 <= value < 0x8000_0000_0000_0000
    else if IsLong(letter) && KeepsSign(flag) then -0x8000_0000_0000_0000 <= value < 0x8000_0000_0000_0000
    else if IsLong(letter) then 0 <= value < 0x1_0000_0000_0000_0000
    else if IsShort(letter) && KeepsSign(flag) then -0x8000_0000 <= value < 0x8000_0000
    else IsShort(letter) && 0 <= value < 0x1_0000_0000
  }

  predicate Special(letter: Byte) {
    || IsLong(letter) || IsShort(letter) || IsSigned(letter) || '0' as int <= letter <= '9' as int
    || letter == 'u' as int || letter == 'm' as int || letter == 'x' as int || letter == 'X' as int
    || letter == '*' as int || letter == '.' as int || letter == 'V' as int || letter == 's' as int
    || letter == 'f' as int || letter == 'c' as int || letter == 'p' as int || letter == 'Z' as int
    || letter == 'N' as int
  }

  predicate WellFormed(p: Part) {
    match p
    case Literal(text) => '%' as int !in text
    case Directive(width, flag, precision, kind) =>
      && AllDigits(width) && (precision.Some? ==> AllDigits(precision.value))
      && match kind
         case Word(word, _) => 0 !in word
         case FirstOf(n, bytes) => n <= |bytes| && n < 0xFFFF_FFFF_FFFF_FFFF
         case Figure(letter, value) => InRange(flag, letter, value)
         case Pointer(address) => address < 0x1_0000_0000_0000_0000
         case Itself(letter) => !Special(letter)
         case _ => true
  }

  function Args(p: Part): seq<Arg> {
    match p
    case Literal(_) => []
    case Directive(_, flag, _, kind) =>
      match kind
      case Word(word, more) => [Text(word + [0] + more)]
      case FirstOf(n, bytes) => [Size(n), Text(bytes)]
      case Counted(str) => [Str(str)]
      case Figure(letter, value) =>
        if KeepsSign(flag) || IsSigned(letter) || value < 0 then [Signed(value)] else [Unsigned(value)]
      case Character(value) => [Signed(value)]
      case Pointer(address) => [Unsigned(address)]
      case _ => []
  }

  function AllArgs(ps: seq<Part>): seq<Arg> {
    if ps == [] then [] else Args(ps[0]) + AllArgs(ps[1..])
  }

  // --- what it prints ------------------------------------------------------------------------

  /** The digits behind as much filling as the width asks for, and the minus sign before that. */
  function Filled(fill: Byte, width: nat, negative: bool, digits: seq<Byte>): seq<Byte> {
    (if negative then ['-' as int] else [])
    + seq(if |digits| < width then width - |digits| else 0, _ => fill) + digits
  }

  function Meaning(p: Part): seq<Byte>
    requires WellFormed(p)
  {
    match p
    case Literal(text) => text
    case Directive(width, flag, _, kind) =>
      match kind
      case Word(word, _) => word
      case FirstOf(n, bytes) => bytes[..n]
      case Counted(str) => str
      case Figure(letter, value) =>
        var fill := if width != [] && width[0] == '0' as int then '0' as int else ' ' as int;
        var radix := if flag.AsHex? then HexLower else if flag.AsUpperHex? then HexUpper else Dec;
        Filled(fill, Value(width) % 0x1_0000_0000, value < 0, Digits(if value < 0 then -value else value, radix))
      case Character(value) => [value % 256]
      case Pointer(address) => Filled('0' as int, 16, false, Digits(address, HexUpper))
      case Newline => [10]
      case Zero => [0]
      case Itself(letter) => [letter]
  }

  function Meanings(ps: seq<Part>): seq<Byte>
    requires forall k :: 0 <= k < |ps| ==> WellFormed(ps[k])
  {
    if ps == [] then [] else Meaning(ps[0]) + Meanings(ps[1..])
  }

  // --- a conversion is read --------------------------------------------------------------------

  /** The width wraps at 32 bits, digit by digit or once. */
  lemma {:induction false} WidthReads(fmt: seq<Byte>, i: nat, ds: seq<Byte>, k: nat)
    requires AllDigits(ds) && k <= |ds| && Has(fmt, i, ds)
    requires i + |ds| == |fmt| || !IsDigit(fmt[i + |ds|])
    ensures i + k <= |fmt| && AllDigits(ds[..k])
    ensures Width(fmt, i + k, Value(ds[..k]) % TWO32) == (Value(ds) % TWO32, i + |ds|)
    decreases |ds| - k
  {
    if k == |ds| {
      assert ds[..k] == ds;
    } else {
      assert fmt[i + k] == fmt[i..i + |ds|][k];
      var v, d := Value(ds[..k]), ds[k] - ZERO;
      assert ds[..k + 1][..k] == ds[..k];
      assert Value(ds[..k + 1]) == v * 10 + d;
      WrapOnce(v, d);
      WidthReads(fmt, i, ds, k + 1);
    }
  }

  lemma WrapOnce(v: nat, d: nat)
    ensures (v % TWO32 * 10 + d) % TWO32 == (v * 10 + d) % TWO32
  {
    var q, r := v / TWO32, v % TWO32;
    assert v * 10 + d == r * 10 + d + q * 10 * TWO32;
    Shift(r * 10 + d, q * 10, TWO32);
  }

  function Flagged(c: Conv, flag: Flag): Conv {
    match flag
    case NoFlag => c
    case Idle => c
    case AsUnsigned => c.(sign := false)
    case AsHex => c.(sign := false, radix := HexLower)
    case AsUpperHex => c.(sign := false, radix := HexUpper)
  }

  lemma FlagReads(fmt: seq<Byte>, j: nat, c: Conv, args: seq<Arg>, flag: Flag)
    requires Has(fmt, j, FlagText(flag))
    ensures Settings(fmt, j, c, args) == Settings(fmt, j + |FlagText(flag)|, Flagged(c, flag), args)
  {
    if flag != NoFlag {
      assert fmt[j] == FlagText(flag)[0];
    }
  }

  function Limited(c: Conv, kind: Kind): Conv {
    if kind.FirstOf? then c.(slen := kind.n) else c
  }

  lemma StarReads(fmt: seq<Byte>, j: nat, c: Conv, kind: Kind, args: seq<Arg>)
    requires Has(fmt, j, StarText(kind)) && (kind.FirstOf? ==> kind.n < TWO64)
    ensures var given := if kind.FirstOf? then [Size(kind.n)] else [];
            Settings(fmt, j, c, given + args) == Settings(fmt, j + |StarText(kind)|, Limited(c, kind), args)
  {
    if kind.FirstOf? {
      assert fmt[j] == StarText(kind)[0];
      assert ([Size(kind.n)] + args)[1..] == args;
    } else {
      assert [] + args == args;
    }
  }

  /** The precision is skipped, and the letter ends the settings. */
  lemma LetterStops(fmt: seq<Byte>, j: nat, c: Conv, width: seq<Byte>, flag: Flag, precision: Option<seq<Byte>>,
                    kind: Kind, args: seq<Arg>)
    requires WellFormed(Directive(width, flag, precision, kind))
    requires Has(fmt, j, DotText(precision)) && Has(fmt, j + |DotText(precision)|, [Letter(kind)])
    ensures Settings(fmt, j, c, args) == Some((c, j + |DotText(precision)|, args))
  {
    LetterIsNone(width, flag, precision, kind);
    HasOne(fmt, j + |DotText(precision)|, Letter(kind));
    if precision.Some? {
      var ds := precision.value;
      Pieces(fmt, j, ['.' as int], ds);
      HasOne(fmt, j, '.' as int);
      hide Has, Letter, WellFormed, Value;
      WidthReads(fmt, j + 1, ds, 0);
      NoWidth(ds);
    }
  }

  lemma NoWidth(ds: seq<Byte>)
    ensures ds[..0] == [] && Value([]) == 0 && 0 % TWO32 == 0
  {
  }

  lemma LetterIsNone(width: seq<Byte>, flag: Flag, precision: Option<seq<Byte>>, kind: Kind)
    requires WellFormed(Directive(width, flag, precision, kind))
    ensures var ch := Letter(kind);
            && !IsDigit(ch) && ch != 'u' as int && ch != 'm' as int && ch != 'x' as int && ch != 'X' as int
            && ch != STAR && ch != DOT
  {
  }

  lemma HasOne(fmt: seq<Byte>, i: nat, b: Byte)
    requires Has(fmt, i, [b])
    ensures i < |fmt| && fmt[i] == b
  {
    assert fmt[i] == [b][0];
  }

  // --- and printed -----------------------------------------------------------------------------

  lemma {:induction false} CStringIs(word: seq<Byte>, more: seq<Byte>)
    requires 0 !in word
    ensures CString(word + [0] + more) == word
    decreases |word|
  {
    var s := word + [0] + more;
    if word != [] {
      assert s[0] == word[0] && s[1..] == word[1..] + [0] + more;
      CStringIs(word[1..], more);
    }
  }

  lemma FilledIsPadded(fill: Byte, width: nat, negative: bool, digits: seq<Byte>)
    ensures Filled(fill, width, negative, digits)
         == if negative then [MINUS] + Padded(fill, width, digits) else Padded(fill, width, digits)
  {
  }

  /** The argument that the letter itself takes. */
  function Own(flag: Flag, kind: Kind): seq<Arg> {
    if kind.FirstOf? then [Text(kind.bytes)] else Args(Directive([], flag, None, kind))
  }

  function Settled(width: seq<Byte>, flag: Flag, kind: Kind): Conv
    requires AllDigits(width)
  {
    Limited(Flagged(First(width), flag), kind)
  }

  /** The settings before the flags. */
  function First(width: seq<Byte>): Conv
    requires AllDigits(width)
  {
    Conv(if width != [] && width[0] == ZERO then ZERO else SPACE, Value(width) % TWO32, true, Dec, UNBOUNDED)
  }

  lemma FigurePrints(width: seq<Byte>, flag: Flag, kind: Kind, rest: seq<Arg>)
    requires WellFormed(Directive(width, flag, None, kind)) && (kind.Figure? || kind.Pointer?)
    ensures Piece(Letter(kind), Settled(width, flag, kind), Own(flag, kind) + rest)
         == Some((Meaning(Directive(width, flag, None, kind)), rest))
  {
    hide Digits, Value, Filled, Padded;
    var args := Own(flag, kind) + rest;
    assert args[1..] == rest;
    var c := Settled(width, flag, kind);
    if kind.Pointer? {
      FilledIsPadded(ZERO, 16, false, Digits(kind.address, HexUpper));
    } else {
      var n := if kind.value < 0 then -kind.value else kind.value;
      FilledIsPadded(c.zero, c.width, kind.value < 0, Digits(n, c.radix));
      assert Format.Integer(kind.letter, c, args) == Some((kind.value < 0, n));
    }
  }

  lemma LetterPrints(width: seq<Byte>, flag: Flag, kind: Kind, rest: seq<Arg>)
    requires WellFormed(Directive(width, flag, None, kind))
    ensures Piece(Letter(kind), Settled(width, flag, kind), Own(flag, kind) + rest)
         == Some((Meaning(Directive(width, flag, None, kind)), rest))
  {
    hide Digits, Value;
    var args := Own(flag, kind) + rest;
    if kind.Figure? || kind.Pointer? {
      FigurePrints(width, flag, kind, rest);
    } else if kind.Newline? || kind.Zero? || kind.Itself? {
      assert args == rest;
    } else {
      assert args[1..] == rest;
      if kind.Word? {
        CStringIs(kind.word, kind.more);
      }
    }
  }

  lemma DirectiveParts(fmt: seq<Byte>, i: nat, width: seq<Byte>, flag: Flag, precision: Option<seq<Byte>>, kind: Kind)
    requires Has(fmt, i, Spelled(Directive(width, flag, precision, kind)))
    ensures Has(fmt, i, [PERCENT]) && Has(fmt, i + 1, width) && Has(fmt, i + 1 + |width|, FlagText(flag))
    ensures var j := i + 1 + |width| + |FlagText(flag)|;
            var k := j + |StarText(kind)|;
            && Has(fmt, j, StarText(kind)) && Has(fmt, k, DotText(precision))
            && Has(fmt, k + |DotText(precision)|, [Letter(kind)])
    ensures |Spelled(Directive(width, flag, precision, kind))|
         == 2 + |width| + |FlagText(flag)| + |StarText(kind)| + |DotText(precision)|
  {
    hide *;
    var j := i + 1 + |width|;
    SpelledFrom(width, flag, precision, kind);
    Pieces(fmt, i, [PERCENT], width + FlagsOn(flag, precision, kind));
    Pieces(fmt, i + 1, width, FlagsOn(flag, precision, kind));
    FlagParts(fmt, j, flag, precision, kind);
    StarParts(fmt, j + |FlagText(flag)|, precision, kind);
    DotParts(fmt, j + |FlagText(flag)| + |StarText(kind)|, precision, kind);
  }

  lemma SpelledFrom(width: seq<Byte>, flag: Flag, precision: Option<seq<Byte>>, kind: Kind)
    ensures Spelled(Directive(width, flag, precision, kind)) == [PERCENT] + (width + FlagsOn(flag, precision, kind))
  {
    hide FlagsOn;
  }

  lemma FlagParts(fmt: seq<Byte>, j: nat, flag: Flag, precision: Option<seq<Byte>>, kind: Kind)
    requires Has(fmt, j, FlagsOn(flag, precision, kind))
    ensures Has(fmt, j, FlagText(flag)) && Has(fmt, j + |FlagText(flag)|, StarOn(precision, kind))
    ensures |FlagsOn(flag, precision, kind)| == |FlagText(flag)| + |StarOn(precision, kind)|
  {
    hide FlagText, StarOn, Has;
    Pieces(fmt, j, FlagText(flag), StarOn(precision, kind));
  }

  lemma StarParts(fmt: seq<Byte>, j: nat, precision: Option<seq<Byte>>, kind: Kind)
    requires Has(fmt, j, StarOn(precision, kind))
    ensures Has(fmt, j, StarText(kind)) && Has(fmt, j + |StarText(kind)|, DotOn(precision, kind))
    ensures |StarOn(precision, kind)| == |StarText(kind)| + |DotOn(precision, kind)|
  {
    hide StarText, DotOn, Has;
    Pieces(fmt, j, StarText(kind), DotOn(precision, kind));
  }

  lemma DotParts(fmt: seq<Byte>, j: nat, precision: Option<seq<Byte>>, kind: Kind)
    requires Has(fmt, j, DotOn(precision, kind))
    ensures Has(fmt, j, DotText(precision)) && Has(fmt, j + |DotText(precision)|, [Letter(kind)])
    ensures |DotOn(precision, kind)| == |DotText(precision)| + 1
  {
    hide DotText, Letter, Has;
    Pieces(fmt, j, DotText(precision), [Letter(kind)]);
  }

  lemma WidthStops(fmt: seq<Byte>, i: nat, width: seq<Byte>, flag: Flag, precision: Option<seq<Byte>>, kind: Kind)
    requires var d := Directive(width, flag, precision, kind); WellFormed(d) && Has(fmt, i, Spelled(d))
    ensures i + 1 + |width| < |fmt| && !IsDigit(fmt[i + 1 + |width|])
  {
    hide *;
    DirectiveParts(fmt, i, width, flag, precision, kind);
    NoDigitFirst(width, flag, precision, kind);
    var j := i + 1 + |width|;
    if FlagText(flag) != [] {
      HasFirst(fmt, j, FlagText(flag));
    } else if StarText(kind) != [] {
      HasFirst(fmt, j, StarText(kind));
    } else if DotText(precision) != [] {
      HasFirst(fmt, j, DotText(precision));
    } else {
      HasOne(fmt, j, Letter(kind));
    }
  }

  lemma NoDigitFirst(width: seq<Byte>, flag: Flag, precision: Option<seq<Byte>>, kind: Kind)
    requires WellFormed(Directive(width, flag, precision, kind))
    ensures FlagText(flag) != [] ==> !IsDigit(FlagText(flag)[0])
    ensures StarText(kind) != [] ==> !IsDigit(StarText(kind)[0])
    ensures DotText(precision) != [] ==> !IsDigit(DotText(precision)[0])
    ensures !IsDigit(Letter(kind))
  {
    LetterIsNone(width, flag, precision, kind);
  }

  lemma HasFirst(fmt: seq<Byte>, i: nat, s: seq<Byte>)
    requires Has(fmt, i, s) && s != []
    ensures i < |fmt| && fmt[i] == s[0]
  {
    assert fmt[i] == fmt[i..i + |s|][0];
  }

  /** The zero in front of the width, if there is one. */
  lemma FillReads(fmt: seq<Byte>, i: nat, width: seq<Byte>, flag: Flag, precision: Option<seq<Byte>>, kind: Kind)
    requires var d := Directive(width, flag, precision, kind); WellFormed(d) && Has(fmt, i, Spelled(d))
    ensures i + 1 < |fmt| && (fmt[i + 1] == ZERO <==> width != [] && width[0] == ZERO)
  {
    hide *;
    WidthStops(fmt, i, width, flag, precision, kind);
    DirectiveParts(fmt, i, width, flag, precision, kind);
    if width == [] {
      NoDigitNoZero(fmt[i + 1]);
    } else {
      HasFirst(fmt, i + 1, width);
    }
  }

  lemma NoDigitNoZero(b: Byte)
    requires !IsDigit(b)
    ensures b != ZERO
  {
  }

  /** The star takes its argument before the letter takes its own. */
  lemma ArgsSplit(width: seq<Byte>, flag: Flag, precision: Option<seq<Byte>>, kind: Kind, rest: seq<Arg>)
    requires WellFormed(Directive(width, flag, precision, kind))
    ensures Args(Directive(width, flag, precision, kind)) + rest
         == (if kind.FirstOf? then [Size(kind.n)] else []) + (Own(flag, kind) + rest)
    ensures kind.FirstOf? ==> kind.n < TWO64
  {
  }

  lemma SettingsRead(fmt: seq<Byte>, j: nat, width: seq<Byte>, flag: Flag, precision: Option<seq<Byte>>, kind: Kind,
                     c0: Conv, rest: seq<Arg>)
    requires WellFormed(Directive(width, flag, precision, kind))
    requires Has(fmt, j, FlagText(flag)) && Has(fmt, j + |FlagText(flag)|, StarText(kind))
    requires var k := j + |FlagText(flag)| + |StarText(kind)|;
             Has(fmt, k, DotText(precision)) && Has(fmt, k + |DotText(precision)|, [Letter(kind)])
    requires Limited(Flagged(c0, flag), kind) == Settled(width, flag, kind)
    ensures Settings(fmt, j, c0, Args(Directive(width, flag, precision, kind)) + rest)
         == Some((Settled(width, flag, kind), j + |FlagText(flag)| + |StarText(kind)| + |DotText(precision)|,
                  Own(flag, kind) + rest))
  {
    hide *;
    var k, args := j + |FlagText(flag)|, Args(Directive(width, flag, precision, kind)) + rest;
    ArgsSplit(width, flag, precision, kind, rest);
    WidthIsDigits(width, flag, precision, kind);
    FlagReads(fmt, j, c0, args, flag);
    StarReads(fmt, k, Flagged(c0, flag), kind, Own(flag, kind) + rest);
    LetterStops(fmt, k + |StarText(kind)|, Settled(width, flag, kind), width, flag, precision, kind,
                Own(flag, kind) + rest);
  }

  lemma ConvertsBy(fmt: seq<Byte>, i: nat, args: seq<Arg>, width: nat, j: nat, c: Conv, k: nat, own: seq<Arg>,
                   piece: seq<Byte>, rest: seq<Arg>)
    requires i < |fmt| && Width(fmt, i, 0) == (width, j)
    requires var fill := if fmt[i] == ZERO then ZERO else SPACE;
             Settings(fmt, j, Conv(fill, width, true, Dec, UNBOUNDED), args) == Some((c, k, own))
    requires k < |fmt| && Piece(fmt[k], c, own) == Some((piece, rest))
    ensures Convert(fmt, i, args) == Some((piece, k + 1, rest))
  {
    hide Settings, Width, Piece;
  }

  lemma WidthRead(fmt: seq<Byte>, i: nat, width: seq<Byte>, flag: Flag, precision: Option<seq<Byte>>, kind: Kind)
    requires var d := Directive(width, flag, precision, kind); WellFormed(d) && Has(fmt, i, Spelled(d))
    ensures AllDigits(width)
    ensures i + 1 < |fmt| && Width(fmt, i + 1, 0) == (Value(width) % TWO32, i + 1 + |width|)
  {
    hide Spelled, Width, Has;
    WidthStops(fmt, i, width, flag, precision, kind);
    DirectiveParts(fmt, i, width, flag, precision, kind);
    WidthReads(fmt, i + 1, width, 0);
    NoWidth(width);
  }

  lemma {:induction false} DirectiveConverts(fmt: seq<Byte>, i: nat, d: Part, rest: seq<Arg>)
    requires d.Directive? && WellFormed(d) && Has(fmt, i, Spelled(d))
    ensures i < |fmt| && fmt[i] == PERCENT
    ensures Convert(fmt, i + 1, Args(d) + rest) == Some((Meaning(d), i + |Spelled(d)|, rest))
  {
    hide *;
    var Directive(width, flag, precision, kind) := d;
    var j := i + 1 + |width|;
    var k := j + |FlagText(flag)| + |StarText(kind)| + |DotText(precision)|;
    WidthIsDigits(width, flag, precision, kind);
    var c0 := First(width);
    SettledIs(width, flag, kind);
    DirectiveParts(fmt, i, width, flag, precision, kind);
    HasOne(fmt, i, PERCENT);
    HasOne(fmt, k, Letter(kind));
    FillReads(fmt, i, width, flag, precision, kind);
    WidthRead(fmt, i, width, flag, precision, kind);
    SettingsRead(fmt, j, width, flag, precision, kind, c0, rest);
    PrecisionIsIdle(d);
    LetterPrints(width, flag, kind, rest);
    ConvertsBy(fmt, i + 1, Args(d) + rest, c0.width, j, Settled(width, flag, kind), k,
               Own(flag, kind) + rest, Meaning(d), rest);
  }

  lemma PrecisionIsIdle(d: Part)
    requires d.Directive? && WellFormed(d)
    ensures WellFormed(d.(precision := None)) && Meaning(d.(precision := None)) == Meaning(d)
  {
    hide Digits, Value, Filled;
  }

  lemma WidthIsDigits(width: seq<Byte>, flag: Flag, precision: Option<seq<Byte>>, kind: Kind)
    requires WellFormed(Directive(width, flag, precision, kind))
    ensures AllDigits(width)
  {
  }

  lemma SettledIs(width: seq<Byte>, flag: Flag, kind: Kind)
    requires AllDigits(width)
    ensures Limited(Flagged(First(width), flag), kind) == Settled(width, flag, kind)
    ensures First(width) == Conv(if width != [] && width[0] == ZERO then ZERO else SPACE, Value(width) % TWO32,
                                 true, Dec, UNBOUNDED)
  {
  }

  // --- whole formats -----------------------------------------------------------------------------

  lemma {:induction false} LiteralPrints(fmt: seq<Byte>, i: nat, text: seq<Byte>, args: seq<Arg>)
    requires '%' as int !in text && Has(fmt, i, text)
    ensures Full(fmt, i, args) == Prepend(text, Full(fmt, i + |text|, args))
    decreases |text|
  {
    hide Convert;
    if text == [] {
      NothingPrepended(Full(fmt, i, args));
    } else {
      assert text == [text[0]] + text[1..];
      Pieces(fmt, i, [text[0]], text[1..]);
      assert fmt[i] == [text[0]][0];
      LiteralPrints(fmt, i + 1, text[1..], args);
      PrependTwice([text[0]], text[1..], Full(fmt, i + |text|, args));
    }
  }

  lemma NothingPrepended(rest: Option<seq<Byte>>)
    ensures Prepend([], rest) == rest
  {
    if rest.Some? {
      assert [] + rest.value == rest.value;
    }
  }

  lemma PrependTwice(a: seq<Byte>, b: seq<Byte>, rest: Option<seq<Byte>>)
    ensures Prepend(a, Prepend(b, rest)) == Prepend(a + b, rest)
  {
    if rest.Some? {
      assert a + (b + rest.value) == (a + b) + rest.value;
    }
  }

  lemma PartPrints(fmt: seq<Byte>, i: nat, p: Part, rest: seq<Arg>)
    requires WellFormed(p) && Has(fmt, i, Spelled(p))
    ensures Full(fmt, i, Args(p) + rest) == Prepend(Meaning(p), Full(fmt, i + |Spelled(p)|, rest))
  {
    hide *;
    if p.Literal? {
      LiteralPartPrints(fmt, i, p, rest);
    } else {
      DirectiveConverts(fmt, i, p, rest);
      FullConverts(fmt, i, Args(p) + rest, Meaning(p), i + |Spelled(p)|, rest);
    }
  }

  lemma LiteralPartPrints(fmt: seq<Byte>, i: nat, p: Part, rest: seq<Arg>)
    requires WellFormed(p) && p.Literal? && Has(fmt, i, Spelled(p))
    ensures Full(fmt, i, Args(p) + rest) == Prepend(Meaning(p), Full(fmt, i + |Spelled(p)|, rest))
  {
    assert Args(p) + rest == rest && Spelled(p) == p.text && Meaning(p) == p.text;
    hide *;
    LiteralPrints(fmt, i, p.text, rest);
  }

  lemma FullConverts(fmt: seq<Byte>, i: nat, args: seq<Arg>, piece: seq<Byte>, j: nat, rest: seq<Arg>)
    requires i < |fmt| && fmt[i] == PERCENT && Convert(fmt, i + 1, args) == Some((piece, j, rest))
    ensures Full(fmt, i, args) == Prepend(piece, Full(fmt, j, rest))
  {
    hide Convert, Prepend;
  }

  lemma {:induction false} PartsPrint(fmt: seq<Byte>, i: nat, ps: seq<Part>)
    requires forall k :: 0 <= k < |ps| ==> WellFormed(ps[k])
    requires Has(fmt, i, Written(ps)) && i + |Written(ps)| == |fmt|
    ensures Full(fmt, i, AllArgs(ps)) == Some(Meanings(ps))
    decreases |ps|
  {
    hide Full, Spelled, Meaning, Args, WellFormed;
    if ps == [] {
      EndPrints(fmt, AllArgs(ps));
    } else {
      Pieces(fmt, i, Spelled(ps[0]), Written(ps[1..]));
      PartPrints(fmt, i, ps[0], AllArgs(ps[1..]));
      PartsPrint(fmt, i + |Spelled(ps[0])|, ps[1..]);
    }
  }

  lemma EndPrints(fmt: seq<Byte>, args: seq<Arg>)
    ensures Full(fmt, |fmt|, args) == Some([])
  {
  }

  /** Any sequence of literal texts and conversions with fitting arguments prints what each of them stands
      for, in order. */
  lemma {:induction false} FormatPrints(ps: seq<Part>)
    requires forall k :: 0 <= k < |ps| ==> WellFormed(ps[k])
    ensures Full(Written(ps), 0, AllArgs(ps)) == Some(Meanings(ps))
  {
    PartsPrint(Written(ps), 0, ps);
  }

  /** In particular "%s" prints a string up to its NUL, and "%*s" so many bytes, a NUL among them or not. */
  lemma PrintsWord(word: seq<Byte>, more: seq<Byte>, n: nat)
    requires NUL !in word && n <= |word + [NUL] + more| && n < UNBOUNDED
    ensures var text := Text(word + [NUL] + more);
            && Full([PERCENT, 's' as int], 0, [text]) == Some(word)
            && Full([PERCENT, STAR, 's' as int], 0, [Size(n), text]) == Some((word + [NUL] + more)[..n])
  {
    var text := Text(word + [NUL] + more);
    var p := Directive([], NoFlag, None, Word(word, more));
    var q := Directive([], NoFlag, None, FirstOf(n, word + [NUL] + more));
    FormatPrints([p]);
    FormatPrints([q]);
    OnePart(p);
    OnePart(q);
    assert Spelled(p) == [PERCENT, 's' as int] && Spelled(q) == [PERCENT, STAR, 's' as int];
  }

  lemma OnePart(p: Part)
    requires WellFormed(p)
    ensures Written([p]) == Spelled(p) && AllArgs([p]) == Args(p) && Meanings([p]) == Meaning(p)
  {
    hide Spelled, Args, Meaning;
    assert [p][1..] == [];
  }
}
