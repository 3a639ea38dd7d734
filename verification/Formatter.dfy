/** The bounded formatter of src/ca_string.c: it writes into a buffer and never past its end. */
module Formatter {
  import opened Bytes
  import opened Wrappers
  import opened Format

  // --- what a bounded write leaves in the buffer -------------------------------------------

  function Room(at: nat, last: nat, n: nat): (r: nat)
    requires at <= last
    ensures at + r <= last && r <= n
  {
    if last - at < n then last - at else n
  }

  /** The buffer after writing s at `at`, as far as it fits before last. */
  function Put(b: seq<Byte>, at: nat, last: nat, s: seq<Byte>): (r: seq<Byte>)
    requires at <= last <= |b|
    ensures |r| == |b|
  {
    var n := Room(at, last, |s|);
    b[..at] + s[..n] + b[at + n..]
  }

  /** The bytes from `at` on are the first bytes of s, as many as fit; the others are kept. */
  lemma PutAt(b: seq<Byte>, at: nat, last: nat, s: seq<Byte>, r: seq<Byte>)
    requires at <= last <= |b|
    requires |r| == |b|
    requires forall j :: 0 <= j < |b| ==>
               r[j] == if at <= j < at + Room(at, last, |s|) then s[j - at] else b[j]
    ensures r == Put(b, at, last, s)
  {
  }

  /** Two bounded writes in a row are one bounded write of the concatenation. */
  lemma PutPut(b: seq<Byte>, at: nat, last: nat, s: seq<Byte>, t: seq<Byte>)
    requires at <= last <= |b|
    ensures Room(at, last, |s + t|) == Room(at, last, |s|) + Room(at + Room(at, last, |s|), last, |t|)
    ensures Put(Put(b, at, last, s), at + Room(at, last, |s|), last, t) == Put(b, at, last, s + t)
  {
  }

  lemma PutNothing(b: seq<Byte>, at: nat, last: nat, s: seq<Byte>)
    requires at <= last <= |b|
    requires s == [] || at == last
    ensures Put(b, at, last, s) == b && Room(at, last, |s|) == 0
  {
  }

  lemma PutKeeps(b: seq<Byte>, at: nat, last: nat, s: seq<Byte>)
    requires at <= last <= |b|
    ensures Put(b, at, last, s)[..at] == b[..at]
    ensures Put(b, at, last, s)[at..at + Room(at, last, |s|)] == s[..Room(at, last, |s|)]
    ensures Put(b, at, last, s)[at + Room(at, last, |s|)..] == b[at + Room(at, last, |s|)..]
  {
  }

  // --- single writes -----------------------------------------------------------------------

  method Store(buf: array<Byte>, at: nat, last: nat, b: Byte) returns (end: nat)
    requires at < last <= buf.Length
    modifies buf
    ensures end == at + 1 == at + Room(at, last, 1)
    ensures buf[..] == Put(old(buf[..]), at, last, [b])
  {
    buf[at] := b;
    end := at + 1;
    PutAt(old(buf[..]), at, last, [b], buf[..]);
  }

  /** ca_cpymem with the length cut to the room that is left. */
  method Copy(buf: array<Byte>, at: nat, last: nat, s: seq<Byte>) returns (end: nat)
    requires at <= last <= buf.Length
    modifies buf
    ensures end == at + Room(at, last, |s|)
    ensures buf[..] == Put(old(buf[..]), at, last, s)
  {
    var len := if last - at < |s| then last - at else |s|;
    var k := 0;
    while k < len
      invariant k <= len
      invariant forall j :: 0 <= j < buf.Length ==>
                  buf[j] == if at <= j < at + k then s[j - at] else old(buf[j])
    {
      buf[at + k] := s[k];
      k := k + 1;
    }
    end := at + len;
    PutAt(old(buf[..]), at, last, s, buf[..]);
  }

  lemma CStringStep(s: seq<Byte>, k: nat)
    requires k <= |s|
    ensures CString(s[k..]) == if k < |s| && s[k] != NUL then [s[k]] + CString(s[k + 1..]) else []
  {
    if k < |s| {
      assert s[k..][1..] == s[k + 1..];
    }
  }

  /** Copies a string up to its NUL or up to last. */
  method CopyString(buf: array<Byte>, at: nat, last: nat, s: seq<Byte>) returns (end: nat)
    requires at <= last <= buf.Length
    modifies buf
    ensures end == at + Room(at, last, |CString(s)|)
    ensures buf[..] == Put(old(buf[..]), at, last, CString(s))
  {
    hide Put, CString, Room;
    end := at;
    var k: nat := 0;
    ghost var done: seq<Byte> := [];
    ghost var rest := CString(s);
    assert s[0..] == s && done + rest == rest;
    PutNothing(buf[..], at, last, []);
    while k < |s| && s[k] != NUL && end < last
      invariant k <= |s| && end <= last
      invariant rest == CString(s[k..]) && CString(s) == done + rest
      invariant end == at + Room(at, last, |done|) && buf[..] == Put(old(buf[..]), at, last, done)
      decreases |s| - k
    {
      CStringStep(s, k);
      PutPut(old(buf[..]), at, last, done, [s[k]]);
      end := Store(buf, end, last, s[k]);
      rest := CString(s[k + 1..]);
      assert done + ([s[k]] + rest) == (done + [s[k]]) + rest;
      done := done + [s[k]];
      k := k + 1;
    }
    CStringStep(s, k);
    PutPut(old(buf[..]), at, last, done, rest);
    PutNothing(buf[..], end, last, rest);
  }

  // --- numbers -----------------------------------------------------------------------------

  const INT64_LEN: nat := 20

  /** The digits of n at the end of the digit buffer; its size is always enough. */
  method DigitsInto(temp: array<Byte>, n: nat, radix: Radix) returns (p: nat)
    requires temp.Length == INT64_LEN + 1 && n < TWO64
    modifies temp
    ensures p <= INT64_LEN && temp[p..INT64_LEN] == Digits(n, radix)
  {
    DigitsFit(n, radix);
    p := INT64_LEN;
    var rest: nat, more := n, true;
    while more
      invariant p <= INT64_LEN
      invariant Digits(n, radix) == (if more then Digits(rest, radix) else []) + temp[p..INT64_LEN]
      decreases if more then rest + 1 else 0
    {
      label before:
      ghost var tail := temp[p..INT64_LEN];
      p := p - 1;
      temp[p] := Digit(rest % Base(radix), radix);
      assert temp[p..INT64_LEN] == [Digit(rest % Base(radix), radix)] + tail;
      rest := rest / Base(radix);
      more := rest != 0;
    }
  }

  /** ca_sprintf_num: padding, then the digits, both cut at last. */
  method SprintfNum(buf: array<Byte>, at: nat, last: nat, u: nat, zero: Byte, radix: Radix, width: nat)
    returns (end: nat)
    requires at <= last <= buf.Length && u < TWO64
    modifies buf
    ensures end == at + Room(at, last, |Padded(zero, width, Digits(u, radix))|)
    ensures buf[..] == Put(old(buf[..]), at, last, Padded(zero, width, Digits(u, radix)))
  {
    hide Put, Digits;
    var temp := new Byte[INT64_LEN + 1];
    var p := DigitsInto(temp, u, radix);
    ghost var digits := Digits(u, radix);
    end := at;
    var len := INT64_LEN - p;
    while len < width && end < last
      modifies buf
      invariant end <= last && INT64_LEN - p <= len
      invariant end - at == len - (INT64_LEN - p)
      invariant len <= width || len == INT64_LEN - p
      invariant forall j :: 0 <= j < buf.Length ==>
                  buf[j] == if at <= j < end then zero else old(buf[j])
      decreases last - end
    {
      buf[end] := zero;
      end := end + 1;
      len := len + 1;
    }
    ghost var pad := Repeat(zero, if |digits| < width then width - |digits| else 0);
    PutAt(old(buf[..]), at, last, pad, buf[..]);
    assert end == at + Room(at, last, |pad|);
    PutPut(old(buf[..]), at, last, pad, digits);
    assert Padded(zero, width, digits) == pad + digits;
    assert temp[p..INT64_LEN] == digits;
    end := Copy(buf, end, last, temp[p..INT64_LEN]);
  }

  // --- reading a conversion ----------------------------------------------------------------

  method ReadWidth(fmt: seq<Byte>, i: nat) returns (width: nat, j: nat)
    requires i <= |fmt|
    ensures j <= |fmt| && (width, j) == Width(fmt, i, 0)
  {
    width, j := 0, i;
    while j < |fmt| && IsDigit(fmt[j])
      invariant i <= j <= |fmt|
      invariant Width(fmt, i, 0) == Width(fmt, j, width)
    {
      width := (width * 10 + (fmt[j] - ZERO)) % TWO32;
      j := j + 1;
    }
  }

  method ReadSettings(fmt: seq<Byte>, i: nat, c0: Conv, args0: seq<Arg>)
    returns (c: Conv, j: nat, args: seq<Arg>)
    requires i <= |fmt| && Settings(fmt, i, c0, args0).Some?
    ensures Settings(fmt, i, c0, args0) == Some((c, j, args))
  {
    c, j, args := c0, i, args0;
    while j < |fmt|
      invariant i <= j <= |fmt|
      invariant Settings(fmt, i, c0, args0) == Settings(fmt, j, c, args)
      decreases |fmt| - j
    {
      if fmt[j] == 'u' as int {
        c := c.(sign := false);
      } else if fmt[j] == 'm' as int {
      } else if fmt[j] == 'X' as int {
        c := c.(sign := false, radix := HexUpper);
      } else if fmt[j] == 'x' as int {
        c := c.(sign := false, radix := HexLower);
      } else if fmt[j] == STAR {
        c, args := c.(slen := args[0].n), args[1..];
      } else if fmt[j] == DOT {
        var width, k := ReadWidth(fmt, j + 1);
        return c, k, args;
      } else {
        return;
      }
      j := j + 1;
    }
  }

  // --- one conversion ----------------------------------------------------------------------

  /** The integer conversions: the sign, then the magnitude. */
  method PutInteger(buf: array<Byte>, at: nat, last: nat, ch: Byte, c: Conv, args0: seq<Arg>)
    returns (end: nat, args: seq<Arg>)
    requires at < last <= buf.Length
    requires IsInteger(ch) && Piece(ch, c, args0).Some?
    modifies buf
    ensures Piece(ch, c, args0).value.1 == args
    ensures end == at + Room(at, last, |Piece(ch, c, args0).value.0|)
    ensures buf[..] == Put(old(buf[..]), at, last, Piece(ch, c, args0).value.0)
  {
    hide Put, Digits, Padded;
    var a := args0[0];
    args := args0[1..];
    var sign := ch == 'O' as int || ch == 'T' as int || ch == 'r' as int || (c.sign && ch != 'p' as int);
    var zero, radix, width := c.zero, c.radix, c.width;
    if ch == 'p' as int {
      zero, radix, width := ZERO, HexUpper, 16;
    }
    end := at;
    var u: nat;
    if sign {
      if a.i < 0 {
        PutPut(buf[..], at, last, [MINUS], Padded(zero, width, Digits(-a.i, radix)));
        end := Store(buf, at, last, MINUS);
        u := -a.i;
      } else {
        u := a.i;
      }
    } else {
      u := a.u;
    }
    end := SprintfNum(buf, end, last, u, zero, radix, width);
  }

  method PutPiece(buf: array<Byte>, at: nat, last: nat, ch: Byte, c: Conv, args0: seq<Arg>)
    returns (end: nat, args: seq<Arg>)
    requires at < last <= buf.Length
    requires Piece(ch, c, args0).Some?
    modifies buf
    ensures Piece(ch, c, args0).value.1 == args
    ensures end == at + Room(at, last, |Piece(ch, c, args0).value.0|)
    ensures buf[..] == Put(old(buf[..]), at, last, Piece(ch, c, args0).value.0)
  {
    args := args0;
    if ch == 'V' as int {
      end := Copy(buf, at, last, args[0].str);
      args := args[1..];
    } else if ch == 's' as int {
      if c.slen == UNBOUNDED {
        end := CopyString(buf, at, last, args[0].bytes);
      } else {
        end := Copy(buf, at, last, args[0].bytes[..c.slen]);
      }
      args := args[1..];
    } else if IsInteger(ch) {
      end, args := PutInteger(buf, at, last, ch, c, args);
    } else if ch == 'c' as int {
      end := Store(buf, at, last, Low(args[0].i));
      args := args[1..];
    } else if ch == 'Z' as int {
      end := Store(buf, at, last, NUL);
    } else if ch == 'N' as int {
      end := Store(buf, at, last, LF);
    } else {
      end := Store(buf, at, last, ch);
    }
  }

  /** Everything after a '%': the settings, then the conversion. */
  method PutConversion(buf: array<Byte>, at: nat, last: nat, fmt: seq<Byte>, i: nat, args0: seq<Arg>)
    returns (end: nat, j: nat, args: seq<Arg>)
    requires at < last <= buf.Length && i <= |fmt|
    requires Convert(fmt, i, args0).Some?
    modifies buf
    ensures Convert(fmt, i, args0).value.1 == j && Convert(fmt, i, args0).value.2 == args
    ensures end == at + Room(at, last, |Convert(fmt, i, args0).value.0|)
    ensures buf[..] == Put(old(buf[..]), at, last, Convert(fmt, i, args0).value.0)
  {
    var zero := if fmt[i] == ZERO then ZERO else SPACE;
    var width, k := ReadWidth(fmt, i);
    var c, m, args1 := ReadSettings(fmt, k, Conv(zero, width, true, Dec, UNBOUNDED), args0);
    end, args := PutPiece(buf, at, last, fmt[m], c, args1);
    j := m + 1;
  }

  lemma FullEnds(fmt: seq<Byte>, args: seq<Arg>)
    ensures Full(fmt, |fmt|, args) == Some([])
  {
  }

  lemma FullStep(fmt: seq<Byte>, i: nat, args: seq<Arg>)
    requires i < |fmt| && Full(fmt, i, args).Some?
    ensures fmt[i] != PERCENT ==>
              Full(fmt, i + 1, args).Some?
              && Full(fmt, i, args).value == [fmt[i]] + Full(fmt, i + 1, args).value
    ensures fmt[i] == PERCENT ==>
              Convert(fmt, i + 1, args).Some?
              && var (piece, j, args') := Convert(fmt, i + 1, args).value;
              Full(fmt, j, args').Some? && Full(fmt, i, args).value == piece + Full(fmt, j, args').value
  {
  }

  /** One turn of the loop: a plain character or a conversion. */
  method PutNext(buf: array<Byte>, at: nat, last: nat, fmt: seq<Byte>, i: nat, args0: seq<Arg>)
    returns (end: nat, j: nat, args: seq<Arg>, ghost piece: seq<Byte>)
    requires at < last <= buf.Length && i < |fmt| && Full(fmt, i, args0).Some?
    modifies buf
    ensures i < j <= |fmt| && Full(fmt, j, args).Some?
    ensures Full(fmt, i, args0).value == piece + Full(fmt, j, args).value
    ensures end == at + Room(at, last, |piece|) && buf[..] == Put(old(buf[..]), at, last, piece)
  {
    FullStep(fmt, i, args0);
    hide Put, Convert, Room, Full;
    if fmt[i] == PERCENT {
      piece := Convert(fmt, i + 1, args0).value.0;
      end, j, args := PutConversion(buf, at, last, fmt, i + 1, args0);
    } else {
      piece := [fmt[i]];
      end := Store(buf, at, last, fmt[i]);
      j, args := i + 1, args0;
    }
  }

  /** ca_vslprintf: whatever the room, exactly the part of the full output that fits is
      written, from `at` on, and no other byte of the buffer changes. */
  method Vslprintf(buf: array<Byte>, at: nat, last: nat, fmt: seq<Byte>, args0: seq<Arg>) returns (end: nat)
    requires at <= last <= buf.Length
    requires NUL !in fmt && Full(fmt, 0, args0).Some?
    modifies buf
    ensures end == at + Room(at, last, |Full(fmt, 0, args0).value|)
    ensures buf[at..end] == Full(fmt, 0, args0).value[..end - at]
    ensures buf[..at] == old(buf[..at]) && buf[end..] == old(buf[end..])
  {
    hide Put, Convert, Room, Full;
    ghost var full := Full(fmt, 0, args0).value;
    end := at;
    var i: nat, args := 0, args0;
    ghost var done: seq<Byte> := [];
    PutNothing(buf[..], at, last, []);
    while i < |fmt| && end < last
      invariant i <= |fmt| && end <= last
      invariant Full(fmt, i, args).Some? && full == done + Full(fmt, i, args).value
      invariant end == at + Room(at, last, |done|) && buf[..] == Put(old(buf[..]), at, last, done)
      decreases |fmt| - i
    {
      ghost var piece;
      end, i, args, piece := PutNext(buf, end, last, fmt, i, args);
      PutPut(old(buf[..]), at, last, done, piece);
      assert full == (done + piece) + Full(fmt, i, args).value;
      done := done + piece;
    }
    ghost var rest := Full(fmt, i, args).value;
    assert i == |fmt| ==> rest == [] by {
      FullEnds(fmt, args);
    }
    PutPut(old(buf[..]), at, last, done, rest);
    PutNothing(buf[..], end, last, rest);
    PutKeeps(old(buf[..]), at, last, full);
  }
}
