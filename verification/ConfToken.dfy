/** The configuration tokenizer of src/ca_conf.c as functions on a whole file: what
    ca_conf_read_token does with one character, and what it returns from a given position. */
module ConfToken {
  import opened Bytes
  import opened Wrappers

  /** The mode flags of ca_conf_read_token that outlive an iteration. */
  datatype Flags = Flags(
    needSpace: bool,
    lastSpace: bool,
    sharpComment: bool,
    variable: bool,
    quoted: bool,
    sQuoted: bool,
    dQuoted: bool)

  const INITIAL := Flags(false, true, false, false, false, false, false)

  datatype Lex = Lex(f: Flags, start: nat, startLine: nat, line: nat, args: seq<seq<Byte>>)

  datatype Fault = Unexpected(ch: Byte) | UnexpectedEnd | TooLong(missing: Option<Byte>)

  datatype Code = Ok | BlockStart | BlockDone | FileDone | Error(fault: Fault)

  datatype Outcome = More(l: Lex) | Return(code: Code, l: Lex)

  predicate IsBlank(ch: Byte) {
    ch == SPACE || ch == TAB || ch == CR || ch == LF
  }

  // --- escapes -----------------------------------------------------------------------------

  /** What the unescape loop writes for a word. */
  function Unescape(s: seq<Byte>): (r: seq<Byte>)
    ensures |r| <= |s|
    decreases |s|
  {
    if s == [] then []
    else if s[0] == BACKSLASH && |s| > 1 && EscapeValue(s[1]).Some? then
      [EscapeValue(s[1]).value] + Unescape(s[2..])
    else [s[0]] + Unescape(s[1..])
  }

  function EscapeValue(ch: Byte): Option<Byte> {
    if ch == DQUOTE || ch == SQUOTE || ch == BACKSLASH then Some(ch)
    else if ch == 't' as int then Some(TAB)
    else if ch == 'r' as int then Some(CR)
    else if ch == 'n' as int then Some(LF)
    else None
  }

  /** Reading s in the way of the scanner, a backslash together with the character after it,
      ends on a backslash that still waits for its character. */
  predicate OpenEscape(s: seq<Byte>)
    decreases |s|
  {
    s != [] && if s[0] == BACKSLASH then |s| == 1 || OpenEscape(s[2..]) else OpenEscape(s[1..])
  }

  // --- one character -----------------------------------------------------------------------

  /** One turn of the loop on character file[p]. */
  function Feed(file: seq<Byte>, p: nat, l: Lex): Outcome
    requires l.start <= p < |file|
  {
    var ch := file[p];
    var l1 := if ch == LF then l.(line := l.line + 1, f := l.f.(sharpComment := false)) else l;
    if l1.f.sharpComment then More(l1)
    else if l1.f.quoted then More(l1.(f := l1.f.(quoted := false)))
    else if l1.f.needSpace then AfterQuote(file, p, l1)
    else if l1.f.lastSpace then Between(file, p, l1)
    else Inside(file, p, l1)
  }

  /** After a closing quote. */
  function AfterQuote(file: seq<Byte>, p: nat, l: Lex): Outcome
    requires p < |file|
  {
    var ch := file[p];
    var l1 := l.(f := l.f.(lastSpace := true, needSpace := false));
    if IsBlank(ch) then More(l1)
    else if ch == SEMICOLON then Return(Ok, l)
    else if ch == LBRACE then Return(BlockStart, l)
    else if ch == RPAREN then Between(file, p, l1)
    else Return(Error(Unexpected(ch)), l)
  }

  /** Between words: the character may start one. */
  function Between(file: seq<Byte>, p: nat, l: Lex): Outcome
    requires p < |file|
  {
    var ch := file[p];
    if IsBlank(ch) then More(l)
    else
      var l1 := l.(start := p, startLine := l.line);
      if ch == SEMICOLON || ch == LBRACE then
        if l.args == [] then Return(Error(Unexpected(ch)), l1)
        else Return(if ch == LBRACE then BlockStart else Ok, l1)
      else if ch == RBRACE then
        Return(if l.args != [] then Error(Unexpected(ch)) else BlockDone, l1)
      else if ch == SHARP then More(l1.(f := l.f.(sharpComment := true)))
      else if ch == BACKSLASH then More(l1.(f := l.f.(quoted := true, lastSpace := false)))
      else if ch == DQUOTE then More(l1.(start := p + 1, f := l.f.(dQuoted := true, lastSpace := false)))
      else if ch == SQUOTE then More(l1.(start := p + 1, f := l.f.(sQuoted := true, lastSpace := false)))
      else More(l1.(f := l.f.(lastSpace := false)))
  }

  /** Inside a word: the character may end it. */
  function Inside(file: seq<Byte>, p: nat, l: Lex): Outcome
    requires l.start <= p < |file|
  {
    var ch := file[p];
    if ch == LBRACE && l.f.variable then More(l)
    else
      var f := l.f.(variable := false);
      if ch == BACKSLASH then More(l.(f := f.(quoted := true)))
      else if ch == DOLLAR then More(l.(f := f.(variable := true)))
      else if f.dQuoted then
        if ch == DQUOTE then EndWord(file, p, l.(f := f.(dQuoted := false, needSpace := true)))
        else More(l.(f := f))
      else if f.sQuoted then
        if ch == SQUOTE then EndWord(file, p, l.(f := f.(sQuoted := false, needSpace := true)))
        else More(l.(f := f))
      else if IsBlank(ch) || ch == SEMICOLON || ch == LBRACE then
        EndWord(file, p, l.(f := f.(lastSpace := true)))
      else More(l.(f := f))
  }

  function EndWord(file: seq<Byte>, p: nat, l: Lex): Outcome
    requires l.start <= p < |file|
  {
    var l1 := l.(args := l.args + [Unescape(file[l.start..p])]);
    if file[p] == SEMICOLON then Return(Ok, l1)
    else if file[p] == LBRACE then Return(BlockStart, l1)
    else More(l1)
  }

  // --- one token ---------------------------------------------------------------------------

  datatype Token = Token(code: Code, args: seq<seq<Byte>>, pos: nat, line: nat)

  /** Reading on from position p with a window of 'window' bytes. The token started, or the
      scan of blanks and comments goes back, to l.start. */
  function Scan(file: seq<Byte>, window: nat, p: nat, l: Lex): (t: Token)
    requires l.start <= p <= |file|
    ensures p <= t.pos <= |file|
    ensures p == t.pos ==> t.code == FileDone || t.code.Error?
    decreases |file| - p
  {
    if p == |file| then
      Token(if l.args != [] || !l.f.lastSpace then Error(UnexpectedEnd) else FileDone, l.args, p, l.line)
    else if p - l.start >= window then Token(Error(TooLong(Missing(l.f))), l.args, p, l.startLine)
    else
      match Feed(file, p, l)
      case More(l') => Scan(file, window, p + 1, l')
      case Return(code, l') => Token(code, l'.args, p + 1, l'.line)
  }

  function Missing(f: Flags): Option<Byte> {
    if f.dQuoted then Some(DQUOTE) else if f.sQuoted then Some(SQUOTE) else None
  }

  function Begin(p: nat, line: nat): Lex {
    Lex(INITIAL, p, line, line, [])
  }

  /** ca_conf_read_token at position p of the file. */
  function ReadToken(file: seq<Byte>, window: nat, p: nat, line: nat): (t: Token)
    requires p <= |file|
    ensures p <= t.pos <= |file|
    ensures p == t.pos ==> t.code == FileDone || t.code.Error?
  {
    Scan(file, window, p, Begin(p, line))
  }

  /** All tokens from position p on, up to the end of the file or the first error. */
  function Stream(file: seq<Byte>, window: nat, p: nat, line: nat): seq<Token>
    requires p <= |file|
    decreases |file| - p
  {
    var t := ReadToken(file, window, p, line);
    if t.code == FileDone || t.code.Error? then [t] else [t] + Stream(file, window, t.pos, t.line)
  }

  /** Which token streams make a configuration: blocks opened and closed in pairs, every
      directive accepted by its handler, and the end of the file at depth 0. */
  predicate Accepts(ts: seq<Token>, depth: nat, blocks: bool, accept: Token -> bool)
    decreases |ts|
  {
    && ts != []
    && match ts[0].code
       case Ok => accept(ts[0]) && Accepts(ts[1..], depth, blocks, accept)
       case BlockStart => blocks && accept(ts[0]) && Accepts(ts[1..], depth + 1, blocks, accept)
       case BlockDone => depth > 0 && Accepts(ts[1..], depth - 1, blocks, accept)
       case FileDone => depth == 0
       case Error(_) => false
  }

  /** How deep in blocks the first n tokens lead. */
  function Depth(ts: seq<Token>, n: nat): int
    requires n <= |ts|
  {
    if n == 0 then 0
    else Depth(ts[1..], n - 1) + (match ts[0].code case BlockStart => 1 case BlockDone => -1 case _ => 0)
  }

  /** Token k is a directive that its handler accepts, or closes a block that is open. */
  predicate Sound(ts: seq<Token>, k: nat, depth: nat, blocks: bool, accept: Token -> bool)
    requires k < |ts|
  {
    match ts[k].code
    case Ok => accept(ts[k])
    case BlockStart => blocks && accept(ts[k])
    case BlockDone => depth + Depth(ts, k) > 0
    case _ => false
  }

  /** The stream is sound up to the end of the file, n tokens on, and all blocks are closed there. */
  ghost predicate Closed(ts: seq<Token>, n: nat, depth: nat, blocks: bool, accept: Token -> bool) {
    && n < |ts| && ts[n].code == FileDone && depth + Depth(ts, n) == 0
    && forall k :: 0 <= k < n ==> Sound(ts, k, depth, blocks, accept)
  }

  /** A stream makes a configuration exactly when it is sound up to an end of the file at which every block that
      was opened has been closed. */
  lemma {:induction false} AcceptsIff(ts: seq<Token>, depth: nat, blocks: bool, accept: Token -> bool)
    ensures Accepts(ts, depth, blocks, accept) <==> exists n: nat :: Closed(ts, n, depth, blocks, accept)
    decreases |ts|
  {
    if ts == [] {
    } else if ts[0].code == FileDone {
      assert depth == 0 ==> Closed(ts, 0, depth, blocks, accept);
      forall n: nat | Closed(ts, n, depth, blocks, accept) ensures depth == 0 {
        if n > 0 {
          assert Sound(ts, 0, depth, blocks, accept);
        }
      }
    } else if !Sound(ts, 0, depth, blocks, accept) {
      forall n: nat ensures !Closed(ts, n, depth, blocks, accept) {
      }
    } else {
      assert Depth(ts, 0) == 0 && Depth(ts[1..], 0) == 0;
      var d := depth + Depth(ts, 1);
      AcceptsIff(ts[1..], d, blocks, accept);
      forall n: nat ensures Closed(ts, n + 1, depth, blocks, accept) <==> Closed(ts[1..], n, d, blocks, accept) {
        ClosedStep(ts, n, depth, d, blocks, accept);
      }
      assert forall n: nat :: Closed(ts, n, depth, blocks, accept) ==> n > 0;
      if n: nat :| Closed(ts, n, depth, blocks, accept) {
        assert Closed(ts[1..], n - 1, d, blocks, accept);
      }
      if n: nat :| Closed(ts[1..], n, d, blocks, accept) {
        assert Closed(ts, n + 1, depth, blocks, accept);
      }
    }
  }

  lemma ClosedStep(ts: seq<Token>, n: nat, depth: nat, d: nat, blocks: bool, accept: Token -> bool)
    requires ts != [] && Sound(ts, 0, depth, blocks, accept) && d == depth + Depth(ts, 1)
    ensures Closed(ts, n + 1, depth, blocks, accept) <==> Closed(ts[1..], n, d, blocks, accept)
  {
    forall k: nat | k + 1 < |ts|
      ensures Sound(ts, k + 1, depth, blocks, accept) <==> Sound(ts[1..], k, d, blocks, accept)
    {
      assert ts[k + 1] == ts[1..][k];
      assert Depth(ts, k + 1) == Depth(ts[1..], k) + Depth(ts, 1);
    }
    if Closed(ts, n + 1, depth, blocks, accept) {
      forall k | 0 <= k < n ensures Sound(ts[1..], k, d, blocks, accept) {
        assert Sound(ts, k + 1, depth, blocks, accept);
      }
    }
    if Closed(ts[1..], n, d, blocks, accept) {
      forall k | 0 <= k < n + 1 ensures Sound(ts, k, depth, blocks, accept) {
        assert k > 0 ==> Sound(ts[1..], k - 1, d, blocks, accept);
      }
    }
  }

  /** The same, under a name that quantifiers can hang on. */
  ghost predicate Legal(ts: seq<Token>, depth: nat, blocks: bool, accept: Token -> bool) {
    Accepts(ts, depth, blocks, accept)
  }

  /** Two streams that make a configuration at the same depths. */
  ghost predicate Alike(ts: seq<Token>, us: seq<Token>, blocks: bool, accept: Token -> bool) {
    forall d: nat :: Legal(ts, d, blocks, accept) <==> Legal(us, d, blocks, accept)
  }

  /** What is left of ts after the block that is open at its start has been closed is us; or
      there is no way to close it. */
  ghost predicate Closes(ts: seq<Token>, ok: bool, us: seq<Token>, accept: Token -> bool) {
    forall d: nat :: 0 < d ==> (Legal(ts, d, true, accept) <==> ok && Legal(us, d - 1, true, accept))
  }

  lemma AcceptsHere(ts: seq<Token>, blocks: bool, accept: Token -> bool)
    requires ts != []
    ensures var t, rest := ts[0], ts[1..];
            && (t.code == Ok && accept(t) ==> Alike(ts, rest, blocks, accept))
            && (t.code == BlockStart && blocks && accept(t) ==>
                  forall d: nat :: Legal(ts, d, blocks, accept) <==> Legal(rest, d + 1, blocks, accept))
            && (t.code == BlockDone ==> Closes(ts, true, rest, accept) && !Legal(ts, 0, blocks, accept))
            && (t.code == FileDone ==> forall d: nat :: Legal(ts, d, blocks, accept) <==> d == 0)
            && (t.code.Error? || (t.code.Ok? && !accept(t)) || (t.code.BlockStart? && !(blocks && accept(t))) ==>
                  forall d: nat :: !Legal(ts, d, blocks, accept))
  {
  }

  /** A window that the file never fills: the tokenizer that holds the whole file. */
  function Whole(file: seq<Byte>): nat {
    |file| + 1
  }

  // --- the two pairings of backslashes agree -------------------------------------------------

  lemma {:induction false} OpenEscapeStep(s: seq<Byte>, ch: Byte)
    ensures OpenEscape(s + [ch]) <==> !OpenEscape(s) && ch == BACKSLASH
    decreases |s|
  {
    if s == [] {
      assert s + [ch] == [ch];
    } else if s[0] == BACKSLASH {
      if |s| > 1 {
        OpenEscapeStep(s[2..], ch);
        assert (s + [ch])[2..] == s[2..] + [ch];
      }
    } else {
      OpenEscapeStep(s[1..], ch);
      assert (s + [ch])[1..] == s[1..] + [ch];
    }
  }

  /** One turn of the unescape loop: it consumes an escape whole, and leaves no half of one. */
  lemma UnescapeStep(s: seq<Byte>)
    requires s != [] && !OpenEscape(s)
    ensures s[0] == BACKSLASH ==> |s| > 1
    ensures var n := if s[0] == BACKSLASH && EscapeValue(s[1]).Some? then 2 else 1;
            var out := if n == 2 then EscapeValue(s[1]).value else s[0];
            && !OpenEscape(s[n..])
            && Unescape(s) == [out] + Unescape(s[n..])
  {
    if s[0] == BACKSLASH && EscapeValue(s[1]) == None {
      assert s[1..][1..] == s[2..];
    }
  }

  predicate InWord(f: Flags) {
    !f.lastSpace && !f.needSpace
  }

  /** What the flags say about the characters since 'start'. */
  ghost predicate Consistent(file: seq<Byte>, p: nat, l: Lex) {
    && l.start <= p <= |file|
    && (l.f.sharpComment ==> l.f.lastSpace)
    && (l.f.lastSpace ==> !l.f.needSpace)
    && !(l.f.dQuoted && l.f.sQuoted)
    && (InWord(l.f) ==> (l.f.quoted <==> OpenEscape(file[l.start..p])))
    && (!InWord(l.f) ==> !l.f.quoted && !l.f.dQuoted && !l.f.sQuoted)
  }

  lemma FeedConsistent(file: seq<Byte>, p: nat, l: Lex)
    requires p < |file| && Consistent(file, p, l)
    ensures Feed(file, p, l).More? ==> Consistent(file, p + 1, Feed(file, p, l).l)
  {
    var r := Feed(file, p, l);
    if r.More? && InWord(r.l.f) {
      if InWord(l.f) {
        assert file[l.start..p + 1] == file[l.start..p] + [file[p]];
        OpenEscapeStep(file[l.start..p], file[p]);
      } else {
        assert file[p..p + 1] == [file[p]] && file[p + 1..p + 1] == [];
      }
    }
  }

  /** Whenever a word is completed, its last backslash has its character inside the word: the
      unescape loop pairs them in the same way and stops at the terminator. */
  lemma WordEndsOutsideEscapes(file: seq<Byte>, p: nat, l: Lex)
    requires p < |file| && Consistent(file, p, l)
    requires Feed(file, p, l).l.args != l.args
    ensures !OpenEscape(file[l.start..p])
    ensures Feed(file, p, l).l.args == l.args + [Unescape(file[l.start..p])]
  {
  }

  // --- the window is transparent -------------------------------------------------------------

  /** Some position of this scan is a full window away from 'start'. */
  ghost predicate Overflows(file: seq<Byte>, window: nat, p: nat, l: Lex)
    requires l.start <= p <= |file|
    decreases |file| - p
  {
    p < |file| &&
    (p - l.start >= window ||
     (Feed(file, p, l).More? && Overflows(file, window, p + 1, Feed(file, p, l).l)))
  }

  /** A scan through a window either meets a stretch that fills the window, and says so, or
      returns what the scan of the whole file returns. */
  lemma {:induction false} ScanTransparent(file: seq<Byte>, window: nat, p: nat, l: Lex)
    requires l.start <= p <= |file|
    ensures Scan(file, window, p, l).code.Error? && Scan(file, window, p, l).code.fault.TooLong?
       <==> Overflows(file, window, p, l)
    ensures !Overflows(file, window, p, l) ==>
              Scan(file, window, p, l) == Scan(file, Whole(file), p, l)
    decreases |file| - p
  {
    if p < |file| && p - l.start < window {
      match Feed(file, p, l)
      case More(l') => ScanTransparent(file, window, p + 1, l');
      case Return(_, _) => FeedNeverTooLong(file, p, l);
    }
  }

  lemma FeedNeverTooLong(file: seq<Byte>, p: nat, l: Lex)
    requires l.start <= p < |file|
    ensures var r := Feed(file, p, l); r.Return? && r.code.Error? ==> r.code.fault.Unexpected?
  {
  }

  predicate IsTooLong(t: Token) {
    t.code.Error? && t.code.fault.TooLong?
  }

  /** Read directive after directive through a window of any size: the codes, words, positions
      and lines are those of the tokenizer that holds the whole file, up to the first
      "too long parameter" error, if there is one. */
  lemma {:induction false} StreamTransparent(file: seq<Byte>, window: nat, p: nat, line: nat)
    requires p <= |file|
    ensures var s, t := Stream(file, window, p, line), Stream(file, Whole(file), p, line);
            || s == t
            || (s != [] && IsTooLong(s[|s| - 1]) && |s| <= |t| && s[..|s| - 1] == t[..|s| - 1])
    decreases |file| - p
  {
    var l := Begin(p, line);
    ScanTransparent(file, window, p, l);
    var a, b := ReadToken(file, window, p, line), ReadToken(file, Whole(file), p, line);
    var s, t := Stream(file, window, p, line), Stream(file, Whole(file), p, line);
    if !IsTooLong(a) {
      assert a == b;
      if !(a.code == FileDone || a.code.Error?) {
        StreamTransparent(file, window, a.pos, a.line);
        var s', t' := Stream(file, window, a.pos, a.line), Stream(file, Whole(file), a.pos, a.line);
        assert s == [a] + s' && t == [a] + t';
        if s' != t' {
          assert s[..|s| - 1] == [a] + s'[..|s'| - 1] && t[..|s| - 1] == [a] + t'[..|s'| - 1];
        }
      }
    }
  }
}
