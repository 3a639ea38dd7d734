/** The decimal readers of src/ca_util.c, and how they undo the formatter. */
module Numbers {
  import opened Bytes
  import opened Format

  /** x as a two's complement number in [-half, half). */
  function Wrap(x: int, half: nat): (r: int)
    requires 0 < half
    ensures -(half as int) <= r < half
  {
    (x + half) % (2 * half) - half
  }

  lemma WrapFits(x: int, half: nat)
    requires 0 < half
    ensures Wrap(x, half) == x <==> -(half as int) <= x < half
  {
    if -(half as int) <= x < half {
      Remainder(x + half, 0, x + half, 2 * half);
    }
  }

  /** Wrapping at every step or once at the end is the same. */
  lemma WrapStep(x: int, d: int, half: nat)
    requires 0 < half
    ensures Wrap(Wrap(x, half) * 10 + d, half) == Wrap(x * 10 + d, half)
  {
    var m := 2 * half as int;
    var k := (x + half) / m;
    assert Wrap(x, half) == x - k * m by {
      assert x + half == k * m + (x + half) % m;
    }
    Shift(x * 10 + d + half, -10 * k, m);
    assert Wrap(x, half) * 10 + d + half == x * 10 + d + half + (-10 * k) * m;
  }

  lemma Shift(x: int, k: int, m: int)
    requires 0 < m
    ensures (x + k * m) % m == x % m
  {
    var q, r := x / m, x % m;
    assert x + k * m == (q + k) * m + r;
    Remainder(x + k * m, q + k, r, m);
  }

  lemma Remainder(y: int, q: int, r: int, m: int)
    requires 0 < m && y == q * m + r && 0 <= r < m
    ensures y % m == r
  {
    var d := y / m - q;
    assert d * m + y % m == r;
    assert d > 0 ==> d * m >= m;
    assert d < 0 ==> d * m <= -m;
  }

  predicate AllDigits(s: seq<Byte>) {
    forall i :: 0 <= i < |s| ==> IsDigit(s[i])
  }

  /** What a run of decimal digits denotes. */
  function Value(s: seq<Byte>): nat
    requires AllDigits(s)
  {
    Denoted(s, 10)
  }

  /** What ca_atoi and ca_atosz answer, for a result type of the given range. */
  function Number(line: seq<Byte>, half: nat): (r: int)
    requires 0 < half
    ensures -1 <= r < half
  {
    if line == [] || !AllDigits(line) then -1
    else
      var v := Wrap(Value(line), half);
      if v < 0 then -1 else v
  }

  /** The readers do not look for overflow: they answer the number written on the line exactly
      when there is one and it is in range. */
  lemma NumberIsValueIff(line: seq<Byte>, half: nat)
    requires 0 < half && AllDigits(line)
    ensures Number(line, half) == Value(line) <==> line != [] && Value(line) < half
  {
    WrapFits(Value(line), half);
  }

  /** Beyond the range the answer can be any number: 2^64 + 7 reads as 7. */
  lemma OverflowExample()
    ensures Number(Digits(TWO64 + 7, Dec), TWO63) == 7
  {
    ReadsDigits(TWO64 + 7);
  }

  method ReadNumber(line: seq<Byte>, half: nat) returns (value: int)
    requires 0 < half
    ensures value == Number(line, half)
  {
    if |line| == 0 {
      return -1;
    }
    value := 0;
    for k := 0 to |line|
      invariant AllDigits(line[..k]) && value == Wrap(Value(line[..k]), half)
    {
      if line[k] < ZERO || line[k] > NINE {
        return -1;
      }
      assert line[..k + 1][..k] == line[..k];
      WrapStep(Value(line[..k]), line[k] - ZERO, half);
      value := Wrap(value * 10 + (line[k] - ZERO), half);
    }
    assert line[..|line|] == line;
    if value < 0 {
      return -1;
    }
  }

  /** ca_atoi: the result is an int. */
  method Atoi(line: seq<Byte>) returns (value: int)
    ensures line == [] || !AllDigits(line) ==> value == -1
    ensures line != [] && AllDigits(line) && Value(line) < TWO32 / 2 ==> value == Value(line)
    ensures value == Number(line, TWO32 / 2)
  {
    value := ReadNumber(line, TWO32 / 2);
    if AllDigits(line) {
      NumberIsValueIff(line, TWO32 / 2);
    }
  }

  /** ca_atosz: the result is an ssize_t. */
  method Atosz(line: seq<Byte>) returns (value: int)
    ensures line == [] || !AllDigits(line) ==> value == -1
    ensures line != [] && AllDigits(line) && Value(line) < TWO63 ==> value == Value(line)
    ensures value == Number(line, TWO63)
  {
    value := ReadNumber(line, TWO63);
    if AllDigits(line) {
      NumberIsValueIff(line, TWO63);
    }
  }

  // --- reading what the formatter wrote ----------------------------------------------------

  lemma {:induction false} ValueAppend(s: seq<Byte>, d: Byte)
    requires AllDigits(s) && IsDigit(d)
    ensures AllDigits(s + [d]) && Value(s + [d]) == Value(s) * 10 + (d - ZERO)
  {
    assert (s + [d])[..|s|] == s;
  }

  lemma {:induction false} DigitsAreDigits(n: nat)
    ensures AllDigits(Digits(n, Dec))
    decreases n
  {
    if n >= 10 {
      DigitsAreDigits(n / 10);
    }
  }

  /** The decimal digits that the formatter generates are read back. */
  lemma ReadsDigits(n: nat)
    ensures AllDigits(Digits(n, Dec)) && Value(Digits(n, Dec)) == n
    ensures n < TWO63 ==> Number(Digits(n, Dec), TWO63) == n
  {
    DigitsAreDigits(n);
    DigitsDenote(n, Dec);
    NumberIsValueIff(Digits(n, Dec), TWO63);
  }

  lemma {:induction false} ValueOfZeros(k: nat, s: seq<Byte>)
    requires AllDigits(s)
    ensures AllDigits(Repeat(ZERO, k) + s) && Value(Repeat(ZERO, k) + s) == Value(s)
    decreases |s|, k
  {
    if s != [] {
      var init := s[..|s| - 1];
      ValueOfZeros(k, init);
      assert Value(s) == Value(init) * 10 + (s[|s| - 1] - ZERO);
      hide Value;
      ValueAppend(Repeat(ZERO, k) + init, s[|s| - 1]);
      assert Repeat(ZERO, k) + s == (Repeat(ZERO, k) + init) + [s[|s| - 1]];
    } else if k != 0 {
      ValueOfZeros(k - 1, []);
      assert Value(s) == 0;
      hide Value;
      ValueAppend(Repeat(ZERO, k - 1) + [], ZERO);
      assert Repeat(ZERO, k) + s == (Repeat(ZERO, k - 1) + []) + [ZERO];
    } else {
      assert Repeat(ZERO, k) + s == s;
    }
  }

  /** Padding with zeros does not change the number: reading undoes formatting. */
  lemma ReadsPadded(n: nat, width: nat)
    requires n < TWO63
    ensures AllDigits(Padded(ZERO, width, Digits(n, Dec)))
    ensures Value(Padded(ZERO, width, Digits(n, Dec))) == n
    ensures Number(Padded(ZERO, width, Digits(n, Dec)), TWO63) == n
  {
    hide Value, Number, Digits;
    var digits := Digits(n, Dec);
    ReadsDigits(n);
    ValueOfZeros(if |digits| < width then width - |digits| else 0, digits);
    assert Repeat(ZERO, 0) + digits == digits;
    NumberIsValueIff(Padded(ZERO, width, digits), TWO63);
  }
}
