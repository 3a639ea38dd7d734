/** Durations written in descending units, with or without spaces between them, are read back as they were
    meant, and no others are accepted. */
module DurationRoundTrip {
  import opened Bytes
  import opened Format
  import opened Numbers
  import opened Duration
  import opened Wrappers

  /** A space right behind a number is a unit of its own. */
  function Letters(u: Unit): (s: seq<Byte>)
    ensures 1 <= |s| <= 2 && !IsDigit(s[0])
  {
    match u
    case Year => ['y' as int]
    case Month => ['M' as int]
    case Week => ['w' as int]
    case Day => ['d' as int]
    case Hour => ['h' as int]
    case Minute => ['m' as int]
    case Second => ['s' as int]
    case Millisecond => ['m' as int, 's' as int]
    case Blank => [' ' as int]
  }

  /** Every term has a number. */
  predicate Writable(terms: seq<Term>) {
    forall k :: 0 <= k < |terms| ==> terms[k].digits != [] && AllDigits(terms[k].digits)
  }

  /** The terms, each with so many spaces behind it, and a last number. */
  function Written(terms: seq<Term>, gaps: seq<nat>, rest: seq<Byte>): seq<Byte>
    requires Writable(terms) && |gaps| == |terms|
  {
    if terms == [] then rest
    else
      terms[0].digits + Letters(terms[0].unit) + (Repeat(SPACE, gaps[0]) + Written(terms[1..], gaps[1..], rest))
  }

  function NoGaps(n: nat): (gaps: seq<nat>)
    ensures |gaps| == n
  {
    if n == 0 then [] else [0] + NoGaps(n - 1)
  }

  lemma {:induction false} RunEndIs(line: seq<Byte>, i: nat, j: nat)
    requires i <= j <= |line| && AllDigits(line[i..j]) && (j < |line| ==> !IsDigit(line[j]))
    ensures RunEnd(line, i) == j
    decreases j - i
  {
    if i < j {
      assert IsDigit(line[i..j][0]);
      assert line[i + 1..j] == line[i..j][1..];
      RunEndIs(line, i + 1, j);
    }
  }

  lemma UnitAtLetters(line: seq<Byte>, j: nat, u: Unit)
    requires j + |Letters(u)| <= |line| && line[j..j + |Letters(u)|] == Letters(u)
    requires j + |Letters(u)| < |line| ==> line[j + |Letters(u)|] != 's' as int
    ensures UnitAt(line, j) == Some((u, j + |Letters(u)|))
  {
    assert line[j] == line[j..j + |Letters(u)|][0];
    if u == Millisecond {
      assert line[j + 1] == line[j..j + |Letters(u)|][1];
    }
  }

  /** What stands behind a term: nothing, or a digit. */
  lemma FirstWritten(terms: seq<Term>, gaps: seq<nat>, rest: seq<Byte>)
    requires Writable(terms) && |gaps| == |terms| && AllDigits(rest)
    ensures Written(terms, gaps, rest) == [] || IsDigit(Written(terms, gaps, rest)[0])
  {
    if terms != [] {
      assert Written(terms, gaps, rest)[0] == terms[0].digits[0];
    }
  }

  lemma {:induction false} SpacesSkipped(line: seq<Byte>, k: nat, n: nat)
    requires k + n <= |line| && line[k..k + n] == Repeat(SPACE, n) && (k + n < |line| ==> line[k + n] != SPACE)
    ensures SkipSpaces(line, k) == k + n
    decreases n
  {
    if n > 0 {
      assert line[k] == line[k..k + n][0];
      assert line[k + 1..k + n] == line[k..k + n][1..] == Repeat(SPACE, n - 1);
      SpacesSkipped(line, k + 1, n - 1);
    }
  }

  lemma SplitEnd(line: seq<Byte>, i: nat)
    requires i <= |line| && RunEnd(line, i) == |line|
    ensures Split(line, i) == Some(Line([], line[i..]))
  {
  }

  lemma SplitStep(line: seq<Byte>, i: nat, j: nat, t: Term, k: nat, m: nat, l: Line)
    requires i <= |line| && RunEnd(line, i) == j < |line| && t.digits == line[i..j]
    requires UnitAt(line, j) == Some((t.unit, k)) && SkipSpaces(line, k) == m && Split(line, m) == Some(l)
    ensures Split(line, i) == Some(Line([t] + l.terms, l.rest))
  {
  }

  /** The first term with the spaces behind it. */
  lemma FirstTerm(line: seq<Byte>, i: nat, t: Term, gap: nat, tail: seq<Byte>)
    requires i <= |line| && t.digits != [] && AllDigits(t.digits) && (tail == [] || IsDigit(tail[0]))
    requires line[i..] == t.digits + Letters(t.unit) + (Repeat(SPACE, gap) + tail)
    ensures var j := i + |t.digits|;
            var k := j + |Letters(t.unit)|;
            && j < |line| && k + gap <= |line| && line[k + gap..] == tail && t.digits == line[i..j]
            && RunEnd(line, i) == j && UnitAt(line, j) == Some((t.unit, k)) && SkipSpaces(line, k) == k + gap
  {
    hide RunEnd, UnitAt, SkipSpaces, Letters;
    var j := i + |t.digits|;
    var k := j + |Letters(t.unit)|;
    ThreeParts(line, i, t.digits, Letters(t.unit), Repeat(SPACE, gap) + tail);
    assert line[k..] == Repeat(SPACE, gap) + [] + tail;
    ThreeParts(line, k, Repeat(SPACE, gap), [], tail);
    RunEndIs(line, i, j);
    assert k < |line| ==> line[k] == SPACE || IsDigit(line[k]) by {
      assert k < |line| ==> line[k] == (Repeat(SPACE, gap) + tail)[0];
    }
    UnitAtLetters(line, j, t.unit);
    SpacesSkipped(line, k, gap);
  }

  lemma {:induction false} SplitWritten(line: seq<Byte>, i: nat, terms: seq<Term>, gaps: seq<nat>, rest: seq<Byte>)
    requires i <= |line| && Writable(terms) && |gaps| == |terms| && AllDigits(rest)
    requires line[i..] == Written(terms, gaps, rest)
    ensures Split(line, i) == Some(Line(terms, rest))
    decreases |terms|
  {
    hide Split, RunEnd, UnitAt, SkipSpaces, Letters;
    if terms == [] {
      assert line[i..|line|] == line[i..];
      RunEndIs(line, i, |line|);
      SplitEnd(line, i);
    } else {
      var t, tail := terms[0], Written(terms[1..], gaps[1..], rest);
      var j := i + |t.digits|;
      var k := j + |Letters(t.unit)|;
      FirstWritten(terms[1..], gaps[1..], rest);
      FirstTerm(line, i, t, gaps[0], tail);
      SplitWritten(line, k + gaps[0], terms[1..], gaps[1..], rest);
      SplitStep(line, i, j, t, k, k + gaps[0], Line(terms[1..], rest));
      assert [t] + terms[1..] == terms;
    }
  }

  lemma ThreeParts(line: seq<Byte>, i: nat, a: seq<Byte>, b: seq<Byte>, c: seq<Byte>)
    requires i <= |line| && line[i..] == a + b + c
    ensures |line| == i + |a| + |b| + |c|
    ensures line[i..i + |a|] == a
    ensures line[i + |a|..i + |a| + |b|] == b
    ensures line[i + |a| + |b|..] == c
    ensures b != [] ==> line[i + |a|] == b[0]
    ensures c != [] ==> line[i + |a| + |b|] == c[0]
  {
    assert line[i..i + |a|] == line[i..][..|a|];
    assert line[i + |a|..i + |a| + |b|] == line[i..][|a|..|a| + |b|];
    assert line[i + |a| + |b|..] == line[i..][|a| + |b|..];
  }

  lemma {:induction false} TermBelowSum(terms: seq<Term>, isSec: bool, k: nat)
    requires Numeric(terms) && k < |terms|
    ensures Value(terms[k].digits) <= Sum(terms, isSec)
    decreases |terms|
  {
    if k == 0 {
      var v, s := Value(terms[0].digits), Scale(terms[0].unit, isSec);
      assert v * s >= v;
    } else {
      TermBelowSum(terms[1..], isSec, k - 1);
      assert terms[1..][k - 1] == terms[k];
    }
  }

  /** The units that a caller may use who asks for seconds, or for milliseconds. */
  predicate Available(u: Unit, isSec: bool) {
    (u == Year || u == Month ==> isSec) && (u == Millisecond ==> !isSec)
  }

  /** Each unit is shorter than the one before it, and a lone space is the last. */
  predicate Shrinking(terms: seq<Term>, isSec: bool) {
    && (forall k :: 0 <= k < |terms| ==> Available(terms[k].unit, isSec))
    && (forall k :: 0 <= k < |terms| - 1 ==>
          terms[k].unit != Blank && Scale(terms[k].unit, isSec) > Scale(terms[k + 1].unit, isSec))
  }

  lemma Shorter(u: Unit, v: Unit, isSec: bool)
    requires Available(u, isSec) && Available(v, isSec)
    ensures Allowed(v, Rank(u), isSec) <==> u != Blank && Scale(u, isSec) > Scale(v, isSec)
  {
  }

  lemma FirstAvailable(u: Unit, isSec: bool)
    ensures Allowed(u, FirstStep(isSec), isSec) <==> Available(u, isSec)
  {
  }

  lemma AllowedAvailable(u: Unit, v: Unit, isSec: bool)
    requires Available(u, isSec) && Allowed(v, Rank(u), isSec)
    ensures Available(v, isSec)
  {
  }

  /** The order in which units are accepted is that of their sizes. */
  lemma {:induction false} DescendsIff(terms: seq<Term>, step: nat, isSec: bool)
    requires terms != [] && Allowed(terms[0].unit, step, isSec) && Available(terms[0].unit, isSec)
    ensures Descending(terms, step, isSec) <==> Shrinking(terms, isSec)
    decreases |terms|
  {
    hide Allowed, Available, Scale, Rank;
    if |terms| == 1 {
      assert terms[1..] == [];
    } else {
      var u, v, tail := terms[0].unit, terms[1].unit, terms[1..];
      assert tail[0] == terms[1];
      if Allowed(v, Rank(u), isSec) {
        AllowedAvailable(u, v, isSec);
        Shorter(u, v, isSec);
        DescendsIff(tail, Rank(u), isSec);
        ShrinkingStep(terms, isSec);
      } else if Available(v, isSec) {
        Shorter(u, v, isSec);
      }
    }
  }

  lemma ShrinkingStep(terms: seq<Term>, isSec: bool)
    requires |terms| > 1
    ensures Shrinking(terms, isSec) <==>
              Available(terms[0].unit, isSec) && Shrinking(terms[1..], isSec) && terms[0].unit != Blank
              && Scale(terms[0].unit, isSec) > Scale(terms[1].unit, isSec)
  {
    hide Available, Scale;
    assert forall k :: 0 < k < |terms| ==> terms[k] == terms[1..][k - 1];
  }

  lemma ShrinkingIff(terms: seq<Term>, isSec: bool)
    ensures Descending(terms, FirstStep(isSec), isSec) <==> Shrinking(terms, isSec)
  {
    if terms != [] {
      FirstAvailable(terms[0].unit, isSec);
      hide Allowed, Available, Scale, FirstStep;
      if Available(terms[0].unit, isSec) {
        DescendsIff(terms, FirstStep(isSec), isSec);
      }
    }
  }

  /** Any list of terms, with any spaces behind each, and with or without a last number of no unit, is read as
      the sum of its terms if each unit is shorter than the one before and the terms stay within 2^31 - 1, and
      refused otherwise. */
  lemma ReadsWritten(terms: seq<Term>, gaps: seq<nat>, rest: seq<Byte>, isSec: bool)
    requires Writable(terms) && Numeric(terms) && |gaps| == |terms| && AllDigits(rest) && (terms != [] || rest != [])
    requires INT32_MAX + Value(rest) * RestScale(isSec) < TWO63
    ensures Meaning(Written(terms, gaps, rest), isSec)
         == if Shrinking(terms, isSec) && Sum(terms, isSec) <= INT32_MAX
            then Some(Sum(terms, isSec) + Value(rest) * RestScale(isSec)) else None
    ensures Sum(terms, isSec) <= INT32_MAX ==> RunsFit(Written(terms, gaps, rest), isSec)
  {
    ShrinkingIff(terms, isSec);
    hide Written, Split, Sum, Descending, Value, Meaning, RunsFit, Shrinking;
    var line := Written(terms, gaps, rest);
    assert line[0..] == line;
    SplitWritten(line, 0, terms, gaps, rest);
    MeaningIs(line, isSec, Line(terms, rest));
    assert terms != [] ==> terms[0].digits != [];
    forall k | 0 <= k < |terms| ensures Value(terms[k].digits) <= Sum(terms, isSec) {
      TermBelowSum(terms, isSec, k);
    }
  }

  // --- the greedy rendering ----------------------------------------------------------------

  function Units(isSec: bool): seq<Unit> {
    if isSec then [Year, Month, Week, Day, Hour, Minute, Second]
    else [Week, Day, Hour, Minute, Second, Millisecond]
  }

  /** n in the units from index k on, largest first, leaving out what is zero. */
  function Greedy(n: nat, isSec: bool, k: nat): (terms: seq<Term>)
    requires k < |Units(isSec)|
    decreases |Units(isSec)| - k
  {
    var u := Units(isSec)[k];
    var q, r := n / Scale(u, isSec), n % Scale(u, isSec);
    if k + 1 == |Units(isSec)| then [Term(Digits(q, Dec), u)]
    else if q == 0 then Greedy(n, isSec, k + 1)
    else [Term(Digits(q, Dec), u)] + Greedy(r, isSec, k + 1)
  }

  /** The terms are in descending order and add up to n. */
  predicate Spells(terms: seq<Term>, n: nat, step: nat, isSec: bool) {
    && terms != [] && Writable(terms) && Numeric(terms) && Sum(terms, isSec) == n
    && Descending(terms, step, isSec)
  }

  predicate WritableTerm(t: Term) {
    t.unit != Blank && t.digits != [] && AllDigits(t.digits)
  }

  lemma SpellsOne(t: Term, step: nat, isSec: bool)
    requires WritableTerm(t) && Allowed(t.unit, step, isSec)
    ensures Spells([t], Value(t.digits) * Scale(t.unit, isSec), step, isSec)
  {
    var none: seq<Term> := [t][1..];
    assert none == [] && Sum(none, isSec) == 0 && Descending(none, Rank(t.unit), isSec);
  }

  lemma SpellsMore(t: Term, terms: seq<Term>, r: nat, step: nat, isSec: bool)
    requires WritableTerm(t) && Allowed(t.unit, step, isSec) && Spells(terms, r, Rank(t.unit), isSec)
    ensures Spells([t] + terms, Value(t.digits) * Scale(t.unit, isSec) + r, step, isSec)
  {
    hide Allowed, Scale, Value, Rank;
    assert ([t] + terms)[1..] == terms;
  }

  lemma UnitsDescend(isSec: bool, k: nat, step: nat)
    requires k < |Units(isSec)| && step < Rank(Units(isSec)[k])
    ensures Units(isSec)[k] != Blank && Allowed(Units(isSec)[k], step, isSec)
    ensures k + 1 < |Units(isSec)| ==> Rank(Units(isSec)[k]) < Rank(Units(isSec)[k + 1])
    ensures k + 1 == |Units(isSec)| ==> Scale(Units(isSec)[k], isSec) == 1
  {
  }

  lemma {:induction false} GreedySums(n: nat, isSec: bool, k: nat, step: nat)
    requires k < |Units(isSec)| && step < Rank(Units(isSec)[k])
    ensures Spells(Greedy(n, isSec, k), n, step, isSec)
    decreases |Units(isSec)| - k
  {
    hide Spells, Digits, Value, Scale, IsDigit, Allowed, Rank, Units;
    var u := Units(isSec)[k];
    var s := Scale(u, isSec);
    var q, r := n / s, n % s;
    var t := Term(Digits(q, Dec), u);
    ReadsDigits(q);
    Largest(n, s);
    UnitsDescend(isSec, k, step);
    if k + 1 == |Units(isSec)| {
      SpellsOne(t, step, isSec);
    } else if q == 0 {
      GreedySums(n, isSec, k + 1, step);
    } else {
      GreedySums(r, isSec, k + 1, Rank(u));
      SpellsMore(t, Greedy(r, isSec, k + 1), r, step, isSec);
    }
  }

  lemma Largest(n: nat, s: nat)
    requires 0 < s
    ensures (n / s) * s + n % s == n
  {
  }

  lemma SpelledIs(terms: seq<Term>, n: nat, isSec: bool)
    requires n <= INT32_MAX && Spells(terms, n, FirstStep(isSec), isSec)
    ensures Writable(terms) && Numeric(terms) && terms != [] && Shrinking(terms, isSec) && Sum(terms, isSec) == n
    ensures Sum(terms, isSec) <= INT32_MAX && AllDigits([]) && Value([]) == 0 && INT32_MAX < TWO63
  {
    ShrinkingIff(terms, isSec);
    hide Sum, Descending, FirstStep, Shrinking, Scale;
  }

  lemma ReadsSpelled(terms: seq<Term>, n: nat, isSec: bool)
    requires n <= INT32_MAX && Spells(terms, n, FirstStep(isSec), isSec)
    ensures Writable(terms)
    ensures var line := Written(terms, NoGaps(|terms|), []); Meaning(line, isSec) == Some(n) && RunsFit(line, isSec)
  {
    SpelledIs(terms, n, isSec);
    hide *;
    ReadsWritten(terms, NoGaps(|terms|), [], isSec);
  }

  /** Every duration up to 2^31 - 1, written in years down to seconds, or in weeks down to
      milliseconds, is read back. */
  lemma ReadsGreedy(n: nat, isSec: bool)
    requires n <= INT32_MAX
    ensures Writable(Greedy(n, isSec, 0))
    ensures var terms := Greedy(n, isSec, 0);
            var line := Written(terms, NoGaps(|terms|), []);
            Meaning(line, isSec) == Some(n) && RunsFit(line, isSec)
  {
    GreedySums(n, isSec, 0, FirstStep(isSec));
    hide *;
    ReadsSpelled(Greedy(n, isSec, 0), n, isSec);
  }

  // --- one unit ----------------------------------------------------------------------------

  /** The letters of each unit and its size, in seconds or in milliseconds. Years and months are not
      accepted where milliseconds are asked for, nor milliseconds where seconds are. */
  function Sizes(isSec: bool): seq<(seq<Byte>, nat)> {
    if isSec then
      [(['y' as int], 31536000), (['M' as int], 2592000), (['w' as int], 604800), (['d' as int], 86400),
       (['h' as int], 3600), (['m' as int], 60), (['s' as int], 1)]
    else
      [(['w' as int], 604800000), (['d' as int], 86400000), (['h' as int], 3600000), (['m' as int], 60000),
       (['s' as int], 1000), (['m' as int, 's' as int], 1)]
  }

  lemma UnitSizes(isSec: bool, k: nat)
    requires k < |Sizes(isSec)|
    ensures |Units(isSec)| == |Sizes(isSec)|
    ensures var u, size := Units(isSec)[k], Sizes(isSec)[k];
            u != Blank && Allowed(u, FirstStep(isSec), isSec) && size == (Letters(u), Scale(u, isSec))
  {
  }

  /** A number of one unit is that many times its size, or refused beyond 2^31 - 1. */
  lemma ReadsUnit(n: nat, isSec: bool, k: nat)
    requires k < |Sizes(isSec)|
    ensures var (letters, size) := Sizes(isSec)[k];
            Meaning(Digits(n, Dec) + letters, isSec) == if n * size <= 0x7fff_ffff then Some(n * size) else None
  {
    hide *;
    UnitSizes(isSec, k);
    ReadsTerm(n, isSec, Units(isSec)[k]);
  }

  lemma ReadsTerm(n: nat, isSec: bool, u: Unit)
    requires Allowed(u, FirstStep(isSec), isSec)
    ensures var m := n * Scale(u, isSec);
            Meaning(Digits(n, Dec) + Letters(u), isSec) == if m <= 0x7fff_ffff then Some(m) else None
  {
    var t := Term(Digits(n, Dec), u);
    OneTerm(n, isSec, u);
    ShrinkingIff([t], isSec);
    hide Scale, Digits, Value, Meaning, Letters, Sum, Written, Allowed, Shrinking;
    ReadsWritten([t], [0], [], isSec);
  }

  lemma OneTerm(n: nat, isSec: bool, u: Unit)
    requires Allowed(u, FirstStep(isSec), isSec)
    ensures var t := Term(Digits(n, Dec), u);
            && Writable([t]) && Numeric([t]) && Descending([t], FirstStep(isSec), isSec)
            && Sum([t], isSec) == n * Scale(u, isSec) && Written([t], [0], []) == Digits(n, Dec) + Letters(u)
    ensures Value([]) == 0
  {
    ReadsDigits(n);
    hide Digits, Scale, Letters;
    assert [Term(Digits(n, Dec), u)][1..] == [];
  }

  lemma BlankUnit(isSec: bool)
    ensures Allowed(Blank, FirstStep(isSec), isSec) && Letters(Blank) == [' ' as int]
    ensures Scale(Blank, isSec) == if isSec then 1 else 1000
  {
  }

  /** A number with a space behind it is one of seconds, but held to 2^31 - 1. */
  lemma LoneSpace(n: nat, isSec: bool)
    ensures var m := if isSec then n else n * 1000;
            Meaning(Digits(n, Dec) + [' ' as int], isSec) == if m <= 0x7fff_ffff then Some(m) else None
  {
    hide *;
    BlankUnit(isSec);
    ReadsTerm(n, isSec, Blank);
  }

  /** Units that are multiples of each other are read alike: a week as seven days, and so on. */
  lemma UnitsRelate(n: nat, isSec: bool)
    ensures Meaning(Digits(n, Dec) + ['w' as int], isSec) == Meaning(Digits(7 * n, Dec) + ['d' as int], isSec)
    ensures Meaning(Digits(n, Dec) + ['d' as int], isSec) == Meaning(Digits(24 * n, Dec) + ['h' as int], isSec)
    ensures Meaning(Digits(n, Dec) + ['h' as int], isSec) == Meaning(Digits(60 * n, Dec) + ['m' as int], isSec)
    ensures Meaning(Digits(n, Dec) + ['m' as int], isSec) == Meaning(Digits(60 * n, Dec) + ['s' as int], isSec)
  {
    hide Digits, Meaning;
    var k := if isSec then 2 else 0;
    ReadsUnit(n, isSec, k);
    ReadsUnit(7 * n, isSec, k + 1);
    ReadsUnit(n, isSec, k + 1);
    ReadsUnit(24 * n, isSec, k + 2);
    ReadsUnit(n, isSec, k + 2);
    ReadsUnit(60 * n, isSec, k + 3);
    ReadsUnit(n, isSec, k + 3);
    ReadsUnit(60 * n, isSec, k + 4);
  }

  /** A year is 365 days and a month 30, where seconds are asked for; a second is 1000 milliseconds, where
      those are. */
  lemma {:induction false} OutermostUnits(n: nat)
    ensures Meaning(Digits(n, Dec) + ['y' as int], true) == Meaning(Digits(365 * n, Dec) + ['d' as int], true)
    ensures Meaning(Digits(n, Dec) + ['M' as int], true) == Meaning(Digits(30 * n, Dec) + ['d' as int], true)
    ensures Meaning(Digits(n, Dec) + ['s' as int], false)
         == Meaning(Digits(1000 * n, Dec) + ['m' as int, 's' as int], false)
  {
    hide Digits, Meaning;
    ReadsUnit(n, true, 0);
    ReadsUnit(365 * n, true, 3);
    ReadsUnit(n, true, 1);
    ReadsUnit(30 * n, true, 3);
    ReadsUnit(n, false, 4);
    ReadsUnit(1000 * n, false, 5);
  }

  // --- oddities ----------------------------------------------------------------------------

  /** A number without a unit is not held to 2^31 - 1. */
  lemma PlainNumber(n: nat, isSec: bool)
    requires INT32_MAX + n * RestScale(isSec) < TWO63
    ensures Meaning(Digits(n, Dec), isSec) == Some(if isSec then n else n * 1000)
  {
    ReadsDigits(n);
    var none: seq<Term> := [];
    assert Written(none, [], Digits(n, Dec)) == Digits(n, Dec);
    ReadsWritten(none, [], Digits(n, Dec), isSec);
  }
}
