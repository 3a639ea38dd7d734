/** Comments and blanks count towards the window: when they alone bring about the "too long parameter"
    error of src/ca_conf.c. */
module ConfLimits {
  import opened Bytes
  import opened ConfToken

  /** Inside a comment nothing moves but the position. */
  lemma {:induction false} CommentScans(file: seq<Byte>, window: nat, p: nat, q: nat, l: Lex)
    requires l.start <= p <= q <= |file| && l.f == INITIAL.(sharpComment := true)
    requires q - l.start <= window && LF !in file[p..q]
    ensures Scan(file, window, p, l) == Scan(file, window, q, l)
    decreases q - p
  {
    if p < q {
      assert file[p] == file[p..q][0] && file[p..q][1..] == file[p + 1..q];
      assert Feed(file, p, l) == More(l);
      CommentScans(file, window, p + 1, q, l);
    }
  }

  lemma CommentOpens(file: seq<Byte>, window: nat, p: nat, line: nat)
    requires 0 < window && p < |file| && file[p] == SHARP
    ensures ReadToken(file, window, p, line)
         == Scan(file, window, p + 1, Begin(p, line).(f := INITIAL.(sharpComment := true)))
  {
  }

  lemma CommentCloses(file: seq<Byte>, window: nat, q: nat, l: Lex)
    requires l.start <= q < |file| && q - l.start < window && file[q] == LF
    requires l.f == INITIAL.(sharpComment := true)
    ensures Scan(file, window, q, l) == Scan(file, window, q + 1, l.(f := INITIAL, line := l.line + 1))
  {
  }

  /** A comment as long as the window, with more of the file behind it, is a "too long parameter". */
  lemma CommentFillsWindow(file: seq<Byte>, window: nat, p: nat, line: nat)
    requires 0 < window && p + window < |file| && file[p] == SHARP && LF !in file[p..p + window]
    ensures IsTooLong(ReadToken(file, window, p, line))
  {
    var l := Begin(p, line).(f := INITIAL.(sharpComment := true));
    CommentOpens(file, window, p, line);
    assert file[p + 1..p + window] == file[p..p + window][1..];
    CommentScans(file, window, p + 1, p + window, l);
  }

  /** A shorter comment is skipped, but its length stays on the account of what follows. */
  lemma CommentIsSkipped(file: seq<Byte>, window: nat, p: nat, line: nat, n: nat)
    requires 0 < n < window && p + n < |file| && file[p] == SHARP
    requires LF !in file[p..p + n] && file[p + n] == LF
    ensures ReadToken(file, window, p, line)
         == Scan(file, window, p + n + 1, Begin(p, line).(line := line + 1))
  {
    var l := Begin(p, line).(f := INITIAL.(sharpComment := true));
    CommentOpens(file, window, p, line);
    assert file[p + 1..p + n] == file[p..p + n][1..];
    CommentScans(file, window, p + 1, p + n, l);
    CommentCloses(file, window, p + n, l);
  }

  /** Between words, blanks that last until a full window has passed since start are one as well. */
  lemma {:induction false} BlanksFillWindow(file: seq<Byte>, window: nat, p: nat, l: Lex)
    requires l.f == INITIAL && l.start <= p <= l.start + window < |file|
    requires forall k :: p <= k < l.start + window ==> IsBlank(file[k])
    ensures IsTooLong(Scan(file, window, p, l))
    decreases l.start + window - p
  {
    if p < l.start + window {
      assert IsBlank(file[p]);
      var l1 := if file[p] == LF then l.(line := l.line + 1) else l;
      assert Feed(file, p, l) == More(l1);
      BlanksFillWindow(file, window, p + 1, l1);
    }
  }

  /** So are as many blanks in front of a directive. */
  lemma LeadingBlanks(file: seq<Byte>, window: nat, p: nat, line: nat)
    requires p + window < |file| && forall k :: p <= k < p + window ==> IsBlank(file[k])
    ensures IsTooLong(ReadToken(file, window, p, line))
  {
    BlanksFillWindow(file, window, p, Begin(p, line));
  }
}
