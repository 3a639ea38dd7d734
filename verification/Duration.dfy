/** The duration reader ca_parse_time of src/ca_util.c, against the meaning of its input. */
module Duration {
  import opened Bytes
  import opened Format
  import opened Numbers
  import opened Wrappers

  const INT32_MAX: nat := 0x7fff_ffff

  // --- units -------------------------------------------------------------------------------

  datatype Unit = Year | Month | Week | Day | Hour | Minute | Second | Millisecond | Blank

  /** The position of a unit; a later term needs a higher one. */
  function Rank(u: Unit): nat {
    match u
    case Year => 1 case Month => 2 case Week => 3 case Day => 4 case Hour => 5
    case Minute => 6 case Second => 7 case Millisecond => 8 case Blank => 9
  }

  function Seconds(u: Unit): nat {
    match u
    case Year => 60 * 60 * 24 * 365
    case Month => 60 * 60 * 24 * 30
    case Week => 60 * 60 * 24 * 7
    case Day => 60 * 60 * 24
    case Hour => 60 * 60
    case Minute => 60
    case Second => 1
    case Millisecond => 1
    case Blank => 1
  }

  /** How many results units (seconds or milliseconds) one unit is. */
  function Scale(u: Unit, isSec: bool): (r: nat)
    ensures 0 < r
  {
    if isSec || u == Millisecond then Seconds(u) else Seconds(u) * 1000
  }

  /** Whether the unit may follow the unit of rank step. */
  predicate Allowed(u: Unit, step: nat, isSec: bool) {
    if u == Millisecond then !isSec && step < Rank(Millisecond)
    else if u == Blank then step < Rank(Second)
    else step < Rank(u)
  }

  function FirstStep(isSec: bool): nat {
    if isSec then 0 else Rank(Month)
  }

  // --- the meaning of a line ---------------------------------------------------------------

  datatype Term = Term(digits: seq<Byte>, unit: Unit)

  /** Digit runs, each with its unit, and the digits after the last unit. */
  datatype Line = Line(terms: seq<Term>, rest: seq<Byte>)

  function RunEnd(line: seq<Byte>, i: nat): (j: nat)
    requires i <= |line|
    ensures i <= j <= |line|
    ensures AllDigits(line[i..j])
    ensures j < |line| ==> !IsDigit(line[j])
    decreases |line| - i
  {
    if i < |line| && IsDigit(line[i]) then RunEnd(line, i + 1) else i
  }

  function SkipSpaces(line: seq<Byte>, i: nat): (j: nat)
    requires i <= |line|
    ensures i <= j <= |line|
    decreases |line| - i
  {
    if i < |line| && line[i] == SPACE then SkipSpaces(line, i + 1) else i
  }

  function UnitAt(line: seq<Byte>, i: nat): (r: Option<(Unit, nat)>)
    requires i < |line|
    ensures r.Some? ==> i < r.value.1 <= |line|
  {
    var ch := line[i];
    if ch == 'y' as int then Some((Year, i + 1))
    else if ch == 'M' as int then Some((Month, i + 1))
    else if ch == 'w' as int then Some((Week, i + 1))
    else if ch == 'd' as int then Some((Day, i + 1))
    else if ch == 'h' as int then Some((Hour, i + 1))
    else if ch == 'm' as int then
      if i + 1 < |line| && line[i + 1] == 's' as int then Some((Millisecond, i + 2)) else Some((Minute, i + 1))
    else if ch == 's' as int then Some((Second, i + 1))
    else if ch == SPACE then Some((Blank, i + 1))
    else None
  }

  /** The terms from i on; None if some character is not part of one. */
  function Split(line: seq<Byte>, i: nat): Option<Line>
    requires i <= |line|
    decreases |line| - i
  {
    var j := RunEnd(line, i);
    if j == |line| then Some(Line([], line[i..]))
    else
      match UnitAt(line, j)
      case None => None
      case Some((u, k)) => Before(Term(line[i..j], u), Split(line, SkipSpaces(line, k)))
  }

  function Before(t: Term, rest: Option<Line>): Option<Line> {
    if rest.Some? then Some(Line([t] + rest.value.terms, rest.value.rest)) else None
  }

  /** The units are in strictly descending order of size. */
  predicate Descending(terms: seq<Term>, step: nat, isSec: bool) {
    terms == [] || (Allowed(terms[0].unit, step, isSec) && Descending(terms[1..], Rank(terms[0].unit), isSec))
  }

  predicate Numeric(terms: seq<Term>) {
    forall k :: 0 <= k < |terms| ==> AllDigits(terms[k].digits)
  }

  function Sum(terms: seq<Term>, isSec: bool): nat
    requires Numeric(terms)
  {
    if terms == [] then 0
    else Value(terms[0].digits) * Scale(terms[0].unit, isSec) + Sum(terms[1..], isSec)
  }

  predicate AnyDigits(terms: seq<Term>) {
    exists k :: 0 <= k < |terms| && terms[k].digits != []
  }

  predicate HasDigit(l: Line) {
    l.rest != [] || AnyDigits(l.terms)
  }

  lemma {:induction false} SplitNumeric(line: seq<Byte>, i: nat)
    requires i <= |line|
    ensures Split(line, i).Some? ==> Numeric(Split(line, i).value.terms) && AllDigits(Split(line, i).value.rest)
    decreases |line| - i
  {
    var j := RunEnd(line, i);
    if j < |line| {
      match UnitAt(line, j)
      case None =>
      case Some((u, k)) => SplitNumeric(line, SkipSpaces(line, k));
    }
  }

  /** The scale of the number after the last unit. */
  function RestScale(isSec: bool): nat {
    if isSec then 1 else 1000
  }

  /** The duration that a line denotes: descending units, 2^31 - 1 at most before the number
      without a unit, and that number added unchecked. */
  function Meaning(line: seq<Byte>, isSec: bool): Option<nat> {
    match Split(line, 0)
    case None => None
    case Some(l) =>
      SplitNumeric(line, 0);
      if Descending(l.terms, FirstStep(isSec), isSec) && Sum(l.terms, isSec) <= INT32_MAX && HasDigit(l)
      then Some(Sum(l.terms, isSec) + Value(l.rest) * RestScale(isSec))
      else None
  }

  /** No number on the line overflows the 64 bits it is read in. */
  predicate RunsFit(line: seq<Byte>, isSec: bool) {
    match Split(line, 0)
    case None => true
    case Some(l) =>
      SplitNumeric(line, 0);
      && (forall k :: 0 <= k < |l.terms| ==> Value(l.terms[k].digits) < TWO63)
      && INT32_MAX + Value(l.rest) * RestScale(isSec) < TWO63
  }

  // --- the reader --------------------------------------------------------------------------

  /** The switch over the unit character: the unit with its bound and scale, or an error. */
  method ReadUnit(line: seq<Byte>, p0: nat, step0: nat, isSec: bool)
    returns (ok: bool, p: nat, step: nat, max: nat, scale: nat, ghost u: Unit)
    requires p0 < |line|
    ensures ok <==> UnitAt(line, p0).Some? && Allowed(UnitAt(line, p0).value.0, step0, isSec)
    ensures ok ==> UnitAt(line, p0) == Some((u, p)) && step == Rank(u) && scale == Scale(u, isSec)
    ensures ok ==> max == INT32_MAX / scale
  {
    ok, p, step, max, scale, u := false, p0 + 1, step0, 0, 1, Blank;
    var ch := line[p0];
    if ch == 'y' as int {
      if step > 0 {
        return;
      }
      step, max, scale, u := 1, INT32_MAX / (60 * 60 * 24 * 365), 60 * 60 * 24 * 365, Year;
    } else if ch == 'M' as int {
      if step >= 2 {
        return;
      }
      step, max, scale, u := 2, INT32_MAX / (60 * 60 * 24 * 30), 60 * 60 * 24 * 30, Month;
    } else if ch == 'w' as int {
      if step >= 3 {
        return;
      }
      step, max, scale, u := 3, INT32_MAX / (60 * 60 * 24 * 7), 60 * 60 * 24 * 7, Week;
    } else if ch == 'd' as int {
      if step >= 4 {
        return;
      }
      step, max, scale, u := 4, INT32_MAX / (60 * 60 * 24), 60 * 60 * 24, Day;
    } else if ch == 'h' as int {
      if step >= 5 {
        return;
      }
      step, max, scale, u := 5, INT32_MAX / (60 * 60), 60 * 60, Hour;
    } else if ch == 'm' as int {
      if p < |line| && line[p] == 's' as int {
        if isSec || step >= 8 {
          return;
        }
        p := p + 1;
        step, max, scale, u := 8, INT32_MAX, 1, Millisecond;
      } else {
        if step >= 6 {
          return;
        }
        step, max, scale, u := 6, INT32_MAX / 60, 60, Minute;
      }
    } else if ch == 's' as int {
      if step >= 7 {
        return;
      }
      step, max, scale, u := 7, INT32_MAX, 1, Second;
    } else if ch == SPACE {
      if step >= 7 {
        return;
      }
      step, max, scale, u := 9, INT32_MAX, 1, Blank;
    } else {
      return;
    }
    if step != 8 && !isSec {
      scale := scale * 1000;
      max := max / 1000;
    }
    ok := true;
  }

  /** The units read so far are in order, and some digit was seen. */
  predicate WellFormed(line: seq<Byte>, isSec: bool) {
    match Split(line, 0)
    case None => false
    case Some(l) => Descending(l.terms, FirstStep(isSec), isSec) && HasDigit(l)
  }

  /** How the reader's state at the start of a digit run relates to the whole line. */
  ghost predicate Reading(line: seq<Byte>, isSec: bool, start: nat, done: seq<Term>, step: nat, total: nat)
    requires start <= |line|
  {
    SplitNumeric(line, 0);
    SplitNumeric(line, start);
    match Split(line, 0)
    case None => Split(line, start).None?
    case Some(a) =>
      && Split(line, start).Some?
      && var s := Split(line, start).value;
      && a.rest == s.rest && a.terms == done + s.terms
      && Descending(a.terms, FirstStep(isSec), isSec) == Descending(s.terms, step, isSec)
      && (RunsFit(line, isSec) ==> Sum(a.terms, isSec) == total + Sum(s.terms, isSec))
  }

  lemma RunValue(line: seq<Byte>, isSec: bool, start: nat, done: seq<Term>, step: nat, total: nat)
    requires start <= |line| && Reading(line, isSec, start, done, step, total)
    requires RunsFit(line, isSec) && Split(line, 0).Some?
    ensures Wrap(Value(line[start..RunEnd(line, start)]), TWO63) == Value(line[start..RunEnd(line, start)])
  {
    hide Wrap, Value, Descending, Sum;
    var a, s := Split(line, 0).value, Split(line, start).value;
    var j := RunEnd(line, start);
    if j == |line| {
      assert line[start..j] == a.rest;
    } else {
      assert a.terms[|done|] == s.terms[0];
    }
    WrapFits(Value(line[start..j]), TWO63);
  }

  lemma ReadingValue(line: seq<Byte>, isSec: bool, start: nat, done: seq<Term>, step: nat, total: nat)
    requires start <= |line| && Reading(line, isSec, start, done, step, total)
    ensures ReadAs(line, isSec, line[start..RunEnd(line, start)], Wrap(Value(line[start..RunEnd(line, start)]), TWO63))
  {
    hide Wrap, Value, RunEnd, Reading, Split, Descending, Sum, RunsFit;
    if RunsFit(line, isSec) && Split(line, 0).Some? {
      RunValue(line, isSec, start, done, step, total);
    }
  }

  lemma ReadingStarts(line: seq<Byte>, isSec: bool)
    ensures Reading(line, isSec, 0, [], FirstStep(isSec), 0)
    ensures FirstStep(isSec) <= 2
  {
    hide Split, Descending, Sum, RunsFit;
  }

  lemma AnyDigitsStep(terms: seq<Term>, t: Term)
    ensures AnyDigits(terms + [t]) <==> AnyDigits(terms) || t.digits != []
  {
    if AnyDigits(terms) {
      var k :| 0 <= k < |terms| && terms[k].digits != [];
      assert (terms + [t])[k].digits != [];
    }
    if t.digits != [] {
      assert (terms + [t])[|terms|].digits != [];
    }
  }

  /** The value that was read for a digit run is the number written there, if it fits. */
  ghost predicate ReadAs(line: seq<Byte>, isSec: bool, digits: seq<Byte>, value: int) {
    RunsFit(line, isSec) && Split(line, 0).Some? ==> AllDigits(digits) && value == Value(digits)
  }

  lemma ReadingUnit(line: seq<Byte>, isSec: bool, start: nat, done: seq<Term>, step: nat, total: nat,
                    j: nat, t: Term, k: nat, next: nat, value: nat)
    requires start <= |line| && j == RunEnd(line, start) && j < |line| && t.digits == line[start..j]
    requires UnitAt(line, j) == Some((t.unit, k)) && Allowed(t.unit, step, isSec) && next == SkipSpaces(line, k)
    requires ReadAs(line, isSec, t.digits, value)
    requires Reading(line, isSec, start, done, step, total)
    ensures Reading(line, isSec, next, done + [t], Rank(t.unit), total + value * Scale(t.unit, isSec))
  {
    hide Scale, Allowed, RunsFit, UnitAt, Value;
    SplitNumeric(line, 0);
    SplitNumeric(line, start);
    if Split(line, 0).Some? {
      var s := Split(line, start).value;
      var rest := Split(line, next).value;
      assert s.terms == [t] + rest.terms && s.terms[1..] == rest.terms;
      assert done + s.terms == (done + [t]) + rest.terms;
    }
  }

  /** An unknown character, or a unit out of order. */
  lemma ReadingFails(line: seq<Byte>, isSec: bool, start: nat, done: seq<Term>, step: nat, total: nat)
    requires start <= |line| && Reading(line, isSec, start, done, step, total)
    requires RunEnd(line, start) < |line|
    requires UnitAt(line, RunEnd(line, start)).Some? ==>
               !Allowed(UnitAt(line, RunEnd(line, start)).value.0, step, isSec)
    ensures !WellFormed(line, isSec) && Meaning(line, isSec) == None
  {
    hide Scale, Allowed, RunsFit, UnitAt, Value, Sum;
  }

  lemma ReadingTooLong(line: seq<Byte>, isSec: bool, start: nat, done: seq<Term>, step: nat, total: nat)
    requires start <= |line| && Reading(line, isSec, start, done, step, total)
    requires total > INT32_MAX && RunsFit(line, isSec)
    ensures Meaning(line, isSec) == None
  {
    hide Descending, RunsFit, Split, HasDigit;
  }

  lemma BeyondBound(v: nat, scale: nat)
    requires 0 < scale && v > INT32_MAX / scale
    ensures v * scale > INT32_MAX
  {
    assert v >= INT32_MAX / scale + 1;
    assert v * scale >= (INT32_MAX / scale + 1) * scale;
  }

  /** A number beyond the bound of its unit. */
  lemma ReadingTooLarge(line: seq<Byte>, isSec: bool, start: nat, done: seq<Term>, step: nat, total: nat,
                        j: nat, u: Unit, k: nat, value: int, max: nat)
    requires start <= |line| && j == RunEnd(line, start) && j < |line|
    requires UnitAt(line, j) == Some((u, k)) && Allowed(u, step, isSec)
    requires value == Wrap(Value(line[start..j]), TWO63)
    requires max == INT32_MAX / Scale(u, isSec)
    requires value < 0 || value > max
    requires Reading(line, isSec, start, done, step, total)
    ensures RunsFit(line, isSec) ==> Meaning(line, isSec) == None
  {
    hide *;
    if RunsFit(line, isSec) {
      if Split(line, 0).Some? {
        RunValue(line, isSec, start, done, step, total);
        ReadingValue(line, isSec, start, done, step, total);
        BeyondBound(value, Scale(u, isSec));
        var t, next := Term(line[start..j], u), SkipSpaces(line, k);
        ReadingUnit(line, isSec, start, done, step, total, j, t, k, next, value);
        ReadingTooLong(line, isSec, next, done + [t], Rank(u), total + value * Scale(u, isSec));
      } else {
        NoMeaning(line, isSec);
      }
    }
  }

  lemma NoMeaning(line: seq<Byte>, isSec: bool)
    requires Split(line, 0) == None
    ensures Meaning(line, isSec) == None
  {
  }

  lemma ReadingWhole(line: seq<Byte>, isSec: bool, start: nat, done: seq<Term>, step: nat, total: nat)
    requires start <= |line| && Reading(line, isSec, start, done, step, total)
    requires RunEnd(line, start) == |line|
    ensures Split(line, 0) == Some(Line(done, line[start..]))
    ensures Descending(done, FirstStep(isSec), isSec)
    ensures Numeric(done) && (RunsFit(line, isSec) ==> Sum(done, isSec) == total)
  {
    hide RunsFit, Value, RunEnd, Scale;
    SplitNumeric(line, 0);
    assert Split(line, start) == Some(Line([], line[start..]));
    assert done + [] == done;
  }

  lemma MeaningIs(line: seq<Byte>, isSec: bool, l: Line)
    requires Split(line, 0) == Some(l) && Numeric(l.terms) && AllDigits(l.rest)
    ensures Meaning(line, isSec)
         == if Descending(l.terms, FirstStep(isSec), isSec) && Sum(l.terms, isSec) <= INT32_MAX && HasDigit(l)
            then Some(Sum(l.terms, isSec) + Value(l.rest) * RestScale(isSec)) else None
    ensures RunsFit(line, isSec)
       <==> (forall k :: 0 <= k < |l.terms| ==> Value(l.terms[k].digits) < TWO63)
            && INT32_MAX + Value(l.rest) * RestScale(isSec) < TWO63
  {
    hide Split, Sum, Descending, Value, HasDigit;
  }

  lemma ReadingEnds(line: seq<Byte>, isSec: bool, start: nat, done: seq<Term>, step: nat, total: nat, value: int)
    requires start <= |line| && RunEnd(line, start) == |line| && total <= INT32_MAX
    requires value == Wrap(Value(line[start..]), TWO63)
    requires Reading(line, isSec, start, done, step, total)
    ensures WellFormed(line, isSec) <==> start < |line| || AnyDigits(done)
    ensures RunsFit(line, isSec) ==>
              Meaning(line, isSec) == if WellFormed(line, isSec)
                                      then Some(total + Value(line[start..]) * RestScale(isSec)) else None
    ensures RunsFit(line, isSec) ==>
              Wrap(total + value * RestScale(isSec), TWO63) == total + Value(line[start..]) * RestScale(isSec)
  {
    hide Wrap, Value, RunEnd, AnyDigits, Reading, Split, Descending, Sum, RunsFit, Meaning;
    ReadingWhole(line, isSec, start, done, step, total);
    assert line[start..RunEnd(line, start)] == line[start..];
    if RunsFit(line, isSec) {
      MeaningIs(line, isSec, Line(done, line[start..]));
      RunValue(line, isSec, start, done, step, total);
      WrapFits(total + value * RestScale(isSec), TWO63);
    }
  }

  lemma RunGrows(line: seq<Byte>, start: nat, p: nat)
    requires start <= p < |line| && AllDigits(line[start..p]) && IsDigit(line[p])
    ensures AllDigits(line[start..p + 1])
    ensures Wrap(Value(line[start..p + 1]), TWO63)
         == Wrap(Wrap(Value(line[start..p]), TWO63) * 10 + (line[p] - ZERO), TWO63)
    ensures RunEnd(line, p) == RunEnd(line, p + 1)
  {
    assert line[start..p + 1] == line[start..p] + [line[p]];
    ValueAppend(line[start..p], line[p]);
    WrapStep(Value(line[start..p]), line[p] - ZERO, TWO63);
  }

  lemma RunAt(line: seq<Byte>, p: nat)
    requires p <= |line|
    ensures p == |line| || !IsDigit(line[p]) ==> RunEnd(line, p) == p
    ensures p < |line| ==> (IsDigit(line[p]) <==> ZERO <= line[p] <= NINE)
  {
  }

  lemma RunStarts(line: seq<Byte>, p: nat)
    requires p <= |line|
    ensures AllDigits(line[p..p]) && Wrap(Value(line[p..p]), TWO63) == 0
  {
    WrapFits(0, TWO63);
  }

  lemma AnyDigitsNone()
    ensures !AnyDigits([])
  {
  }

  method Spaces(line: seq<Byte>, p0: nat) returns (p: nat)
    requires p0 <= |line|
    ensures p == SkipSpaces(line, p0)
  {
    p := p0;
    while p < |line| && line[p] == SPACE
      invariant p0 <= p <= |line| && SkipSpaces(line, p) == SkipSpaces(line, p0)
    {
      p := p + 1;
    }
  }

  /** ca_parse_time: what is not a descending list of terms is refused, whatever its numbers; and if
      the numbers fit in 64 bits, the answer is the duration the line denotes, or -1 if none. */
  method ParseTime(line: seq<Byte>, isSec: bool) returns (r: int)
    ensures !WellFormed(line, isSec) ==> r == -1
    ensures RunsFit(line, isSec) ==>
              r == match Meaning(line, isSec) case None => -1 case Some(n) => n
  {
    hide *;
    var valid, value: int, total: nat := false, 0, 0;
    var step := FirstStep(isSec);
    var p: nat := 0;
    ghost var start: nat, done: seq<Term> := 0, [];
    ReadingStarts(line, isSec);
    RunStarts(line, 0);
    AnyDigitsNone();
    while p < |line|
      invariant start <= p <= |line|
      invariant AllDigits(line[start..p]) && value == Wrap(Value(line[start..p]), TWO63)
      invariant RunEnd(line, start) == RunEnd(line, p)
      invariant Reading(line, isSec, start, done, step, total)
      invariant total <= INT32_MAX
      invariant valid <==> start < p || AnyDigits(done)
      decreases |line| - p
    {
      RunAt(line, p);
      if ZERO <= line[p] <= NINE {
        RunGrows(line, start, p);
        value := Wrap(value * 10 + (line[p] - ZERO), TWO63);
        p := p + 1;
        valid := true;
      } else {
        var ok, q, step', max, scale, u := ReadUnit(line, p, step, isSec);
        if !ok {
          ReadingFails(line, isSec, start, done, step, total);
          return -1;
        }
        if value < 0 || value > max {
          ReadingTooLarge(line, isSec, start, done, step, total, p, u, q, value, max);
          return -1;
        }
        ReadingValue(line, isSec, start, done, step, total);
        ghost var t := Term(line[start..p], u);
        ReadingUnit(line, isSec, start, done, step, total, p, t, q, SkipSpaces(line, q), value);
        AnyDigitsStep(done, t);
        done := done + [t];
        start := SkipSpaces(line, q);
        total := total + value * scale;
        step := step';
        if total > INT32_MAX {
          if RunsFit(line, isSec) {
            ReadingTooLong(line, isSec, start, done, step, total);
          }
          return -1;
        }
        value := 0;
        p := Spaces(line, q);
        RunStarts(line, p);
      }
    }
    RunAt(line, p);
    assert line[start..p] == line[start..];
    ReadingEnds(line, isSec, start, done, step, total, value);
    if valid {
      return Wrap(total + value * RestScale(isSec), TWO63);
    }
    return -1;
  }
}
