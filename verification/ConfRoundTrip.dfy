/** Writing words in double quotes and reading them back (src/ca_conf.c). */
module ConfRoundTrip {
  import opened Bytes
  import opened ConfToken

  /** A byte string as it is written between double quotes. */
  function Escape(w: seq<Byte>): seq<Byte> {
    if w == [] then [] else EscapeByte(w[0]) + Escape(w[1..])
  }

  function EscapeByte(b: Byte): seq<Byte> {
    if b == DQUOTE || b == BACKSLASH then [BACKSLASH, b] else [b]
  }

  /** A directive: the words in double quotes, a space between them, a semicolon at the end. */
  function Written(ws: seq<seq<Byte>>): (r: seq<Byte>)
    requires ws != []
  {
    [DQUOTE] + Escape(ws[0]) + [DQUOTE] + (if |ws| == 1 then [SEMICOLON] else [SPACE] + Written(ws[1..]))
  }

  function Newlines(w: seq<Byte>): nat {
    if w == [] then 0 else (if w[0] == LF then 1 else 0) + Newlines(w[1..])
  }

  function AllNewlines(ws: seq<seq<Byte>>): nat {
    if ws == [] then 0 else Newlines(ws[0]) + AllNewlines(ws[1..])
  }

  /** No stretch from the start of a word to the character that starts the next one, or ends
      the directive, fills the window. */
  ghost predicate Fits(ws: seq<seq<Byte>>, window: nat)
    requires ws != []
  {
    && (forall i :: 0 <= i < |ws| - 1 ==> |Escape(ws[i])| + 2 < window)
    && |Escape(ws[|ws| - 1])| + 1 < window
  }

  lemma {:induction false} UnescapeEscape(w: seq<Byte>)
    ensures Unescape(Escape(w)) == w
  {
    if w != [] {
      UnescapeEscape(w[1..]);
      var e := Escape(w);
      if w[0] == DQUOTE || w[0] == BACKSLASH {
        assert e[0] == BACKSLASH && e[1] == w[0] && e[2..] == Escape(w[1..]);
      } else {
        assert e[0] == w[0] && e[1..] == Escape(w[1..]);
      }
    }
  }

  /** The modes inside double quotes, between escapes. */
  function InQuotes(variable: bool): Flags {
    Flags(false, false, false, variable, false, false, true)
  }

  function VariableAfter(variable: bool, b: Byte): bool {
    b == DOLLAR || (b == LBRACE && variable)
  }

  /** One byte of a word, escaped or not, leaves the scanner inside the quotes. */
  lemma ScanByte(file: seq<Byte>, window: nat, p: nat, l: Lex, variable: bool, b: Byte)
    requires l.f == InQuotes(variable) && l.start <= p
    requires p + |EscapeByte(b)| < |file| && file[p..p + |EscapeByte(b)|] == EscapeByte(b)
    requires p + |EscapeByte(b)| - l.start <= window
    ensures Scan(file, window, p, l)
         == Scan(file, window, p + |EscapeByte(b)|,
                 l.(f := InQuotes(VariableAfter(variable, b)), line := l.line + Newlines([b])))
  {
    assert EscapeByte(b)[0] == file[p];
    if |EscapeByte(b)| == 2 {
      assert EscapeByte(b)[1] == file[p + 1];
      var l1 := l.(f := l.f.(variable := false, quoted := true));
      assert Feed(file, p, l) == More(l1);
      assert Feed(file, p + 1, l1) == More(l1.(f := InQuotes(false)));
      assert Scan(file, window, p, l) == Scan(file, window, p + 1, l1);
    } else {
      assert Feed(file, p, l)
          == More(l.(f := InQuotes(VariableAfter(variable, b)), line := l.line + Newlines([b])));
    }
  }

  lemma {:induction false} ScanWord(file: seq<Byte>, window: nat, p: nat, l: Lex, variable: bool, w: seq<Byte>)
    returns (variable': bool)
    requires l.f == InQuotes(variable) && l.start <= p
    requires p + |Escape(w)| < |file| && Has(file, p, Escape(w))
    requires p + |Escape(w)| - l.start <= window
    ensures Scan(file, window, p, l)
         == Scan(file, window, p + |Escape(w)|, l.(f := InQuotes(variable'), line := l.line + Newlines(w)))
    decreases |w|
  {
    hide Scan, Feed;
    variable' := variable;
    if w != [] {
      var n := |EscapeByte(w[0])|;
      Pieces(file, p, EscapeByte(w[0]), Escape(w[1..]));
      ScanByte(file, window, p, l, variable, w[0]);
      var l1 := l.(f := InQuotes(VariableAfter(variable, w[0])), line := l.line + Newlines([w[0]]));
      assert |Escape(w)| == n + |Escape(w[1..])|;
      assert Newlines([w[0]]) + Newlines(w[1..]) == Newlines(w);
      variable' := ScanWord(file, window, p + n, l1, VariableAfter(variable, w[0]), w[1..]);
      assert l1.(f := InQuotes(variable'), line := l1.line + Newlines(w[1..]))
          == l.(f := InQuotes(variable'), line := l.line + Newlines(w));
    }
  }

  /** A word in double quotes is read as one argument, and the scanner is then behind a
      closing quote. */
  lemma ScanQuoted(file: seq<Byte>, window: nat, p: nat, l: Lex, w: seq<Byte>)
    requires l.f == INITIAL && l.start <= p < l.start + window
    requires Has(file, p, [DQUOTE] + Escape(w) + [DQUOTE])
    requires |Escape(w)| < window
    ensures Scan(file, window, p, l) == Scan(file, window, p + |Escape(w)| + 2, Behind(p, l, w))
  {
    hide Scan, Feed;
    Pieces(file, p, [DQUOTE] + Escape(w), [DQUOTE]);
    Pieces(file, p, [DQUOTE], Escape(w));
    ScanOpen(file, window, p, l);
    var l1 := Lex(InQuotes(false), p + 1, l.line, l.line, l.args);
    var v := ScanWord(file, window, p + 1, l1, false, w);
    ScanClose(file, window, p, l, v, w);
  }

  lemma ScanOpen(file: seq<Byte>, window: nat, p: nat, l: Lex)
    requires l.f == INITIAL && l.start <= p < l.start + window && Has(file, p, [DQUOTE])
    ensures Scan(file, window, p, l)
         == Scan(file, window, p + 1, Lex(InQuotes(false), p + 1, l.line, l.line, l.args))
  {
    assert file[p] == [DQUOTE][0];
  }

  lemma ScanClose(file: seq<Byte>, window: nat, p: nat, l: Lex, variable: bool, w: seq<Byte>)
    requires Has(file, p + 1, Escape(w)) && Has(file, p + 1 + |Escape(w)|, [DQUOTE])
    requires |Escape(w)| < window
    ensures var l1 := Lex(InQuotes(variable), p + 1, l.line, l.line + Newlines(w), l.args);
            Scan(file, window, p + 1 + |Escape(w)|, l1)
            == Scan(file, window, p + |Escape(w)| + 2, Behind(p, l, w))
  {
    var end := p + 1 + |Escape(w)|;
    assert file[end] == [DQUOTE][0];
    UnescapeEscape(w);
    var l1 := Lex(InQuotes(variable), p + 1, l.line, l.line + Newlines(w), l.args);
    assert Feed(file, end, l1) == More(Behind(p, l, w));
  }

  lemma FitsHead(ws: seq<seq<Byte>>, window: nat)
    requires ws != []
    ensures |ws| == 1 ==> (Fits(ws, window) <==> |Escape(ws[0])| + 1 < window)
    ensures |ws| > 1 ==> (Fits(ws, window) <==> |Escape(ws[0])| + 2 < window && Fits(ws[1..], window))
  {
    if |ws| > 1 && Fits(ws[1..], window) {
      assert forall i :: 0 < i < |ws| ==> ws[i] == ws[1..][i - 1];
    }
  }

  function Behind(p: nat, l: Lex, w: seq<Byte>): Lex {
    Lex(INITIAL.(needSpace := true, lastSpace := false), p + 1, l.line, l.line + Newlines(w), l.args + [w])
  }

  /** The semicolon behind the last word. */
  lemma ScanEnd(file: seq<Byte>, window: nat, q: nat, l: Lex)
    requires l.f == INITIAL.(needSpace := true, lastSpace := false) && l.start <= q < l.start + window
    requires Has(file, q, [SEMICOLON])
    ensures Scan(file, window, q, l) == Token(Ok, l.args, q + 1, l.line)
  {
    assert file[q] == SEMICOLON;
  }

  /** The space between two words. */
  lemma ScanSpace(file: seq<Byte>, window: nat, q: nat, l: Lex)
    requires l.f == INITIAL.(needSpace := true, lastSpace := false) && l.start <= q < l.start + window
    requires Has(file, q, [SPACE])
    ensures Scan(file, window, q, l) == Scan(file, window, q + 1, l.(f := INITIAL))
  {
    assert file[q] == SPACE;
  }

  lemma Lengths(ws: seq<seq<Byte>>)
    requires ws != []
    ensures |ws| == 1 ==> |Written(ws)| == |Escape(ws[0])| + 3 && AllNewlines(ws) == Newlines(ws[0])
    ensures |ws| > 1 ==>
              && |Written(ws)| == |Escape(ws[0])| + 3 + |Written(ws[1..])|
              && AllNewlines(ws) == Newlines(ws[0]) + AllNewlines(ws[1..])
  {
    hide Escape, Newlines;
    assert AllNewlines([]) == 0;
  }

  /** The first of several words, up to the one behind it. */
  lemma ScanFirst(file: seq<Byte>, window: nat, p: nat, l: Lex, ws: seq<seq<Byte>>) returns (l1: Lex)
    requires |ws| > 1 && Has(file, p, Written(ws)) && Fits(ws, window)
    requires l.f == INITIAL && l.start <= p < l.start + window
    ensures var q := p + |Escape(ws[0])| + 3;
            && Has(file, q, Written(ws[1..])) && Fits(ws[1..], window)
            && l1.f == INITIAL && l1.start <= q < l1.start + window
            && l1.args == l.args + [ws[0]] && l1.line == l.line + Newlines(ws[0])
            && Scan(file, window, p, l) == Scan(file, window, q, l1)
  {
    hide Scan, Feed, Escape, Newlines, Fits;
    var w, q := ws[0], p + |Escape(ws[0])| + 2;
    FitsHead(ws, window);
    Pieces(file, p, [DQUOTE] + Escape(w) + [DQUOTE], [SPACE] + Written(ws[1..]));
    Pieces(file, q, [SPACE], Written(ws[1..]));
    hide Written, Has;
    ScanQuoted(file, window, p, l, w);
    ScanSpace(file, window, q, Behind(p, l, w));
    l1 := Behind(p, l, w).(f := INITIAL);
  }

  lemma ScanLast(file: seq<Byte>, window: nat, p: nat, l: Lex, ws: seq<seq<Byte>>)
    requires |ws| == 1 && Has(file, p, Written(ws)) && Fits(ws, window)
    requires l.f == INITIAL && l.start <= p < l.start + window
    ensures Scan(file, window, p, l)
         == Token(Ok, l.args + ws, p + |Escape(ws[0])| + 3, l.line + Newlines(ws[0]))
  {
    hide Scan, Feed, Escape, Newlines, Fits;
    var w := ws[0];
    FitsHead(ws, window);
    Pieces(file, p, [DQUOTE] + Escape(w) + [DQUOTE], [SEMICOLON]);
    hide Written, Has;
    ScanQuoted(file, window, p, l, w);
    ScanEnd(file, window, p + |Escape(w)| + 2, Behind(p, l, w));
    assert ws == [w];
  }

  lemma {:induction false} ScanWritten(file: seq<Byte>, window: nat, p: nat, l: Lex, ws: seq<seq<Byte>>)
    requires ws != [] && Has(file, p, Written(ws)) && Fits(ws, window)
    requires l.f == INITIAL && l.start <= p < l.start + window
    ensures Scan(file, window, p, l)
         == Token(Ok, l.args + ws, p + |Written(ws)|, l.line + AllNewlines(ws))
    decreases |ws|
  {
    hide *;
    Lengths(ws);
    if |ws| == 1 {
      ScanLast(file, window, p, l, ws);
    } else {
      var l1 := ScanFirst(file, window, p, l, ws);
      ScanWritten(file, window, p + |Escape(ws[0])| + 3, l1, ws[1..]);
      assert l.args + [ws[0]] + ws[1..] == l.args + ws;
    }
  }

  /** Any non-empty list of byte strings, written as a directive at position p of a file, is
      read back as exactly those strings, if no word fills the window. */
  lemma ReadsBack(file: seq<Byte>, window: nat, p: nat, line: nat, ws: seq<seq<Byte>>)
    requires ws != [] && Has(file, p, Written(ws)) && Fits(ws, window)
    ensures ReadToken(file, window, p, line)
         == Token(Ok, ws, p + |Written(ws)|, line + AllNewlines(ws))
  {
    ScanWritten(file, window, p, Begin(p, line), ws);
    assert [] + ws == ws;
  }

  lemma FullWindow(file: seq<Byte>, window: nat, p: nat, l: Lex)
    requires l.start + window <= p < |file|
    ensures IsTooLong(Scan(file, window, p, l))
  {
  }

  /** The window is full between a backslash and its character. */
  lemma EscapeOverflows(file: seq<Byte>, window: nat, p: nat, l: Lex, variable: bool)
    requires l.f == InQuotes(variable) && l.start <= p && p + 1 < |file|
    requires file[p] == BACKSLASH && p + 1 - l.start == window
    ensures IsTooLong(Scan(file, window, p, l))
  {
    FullWindow(file, window, p + 1, l.(f := l.f.(variable := false, quoted := true)));
  }

  /** A word that does not end before the window is full. */
  lemma {:induction false} WordOverflows(file: seq<Byte>, window: nat, p: nat, l: Lex, variable: bool, w: seq<Byte>)
    requires l.f == InQuotes(variable) && l.start <= p
    requires p + |Escape(w)| < |file| && Has(file, p, Escape(w))
    requires p + |Escape(w)| - l.start >= window
    ensures IsTooLong(Scan(file, window, p, l))
    decreases |w|
  {
    hide Scan, Feed;
    if p - l.start >= window {
      FullWindow(file, window, p, l);
    } else {
      var b, n := w[0], |EscapeByte(w[0])|;
      Pieces(file, p, EscapeByte(b), Escape(w[1..]));
      assert |Escape(w)| == n + |Escape(w[1..])|;
      hide Escape, Newlines, InQuotes;
      if p + n - l.start <= window {
        ScanByte(file, window, p, l, variable, b);
        var l1 := l.(f := InQuotes(VariableAfter(variable, b)), line := l.line + Newlines([b]));
        WordOverflows(file, window, p + n, l1, VariableAfter(variable, b), w[1..]);
      } else {
        assert n == 2 && EscapeByte(b)[0] == BACKSLASH && file[p..p + n][0] == file[p];
        EscapeOverflows(file, window, p, l, variable);
      }
    }
  }

  lemma QuotedOverflows(file: seq<Byte>, window: nat, p: nat, l: Lex, w: seq<Byte>)
    requires l.f == INITIAL && l.start <= p < l.start + window
    requires Has(file, p, [DQUOTE] + Escape(w) + [DQUOTE]) && |Escape(w)| >= window
    ensures IsTooLong(Scan(file, window, p, l))
  {
    hide Scan, Feed, Escape;
    Pieces(file, p, [DQUOTE] + Escape(w), [DQUOTE]);
    Pieces(file, p, [DQUOTE], Escape(w));
    ScanOpen(file, window, p, l);
    WordOverflows(file, window, p + 1, Lex(InQuotes(false), p + 1, l.line, l.line, l.args), false, w);
  }

  /** A directive of which some word does not fit. */
  lemma {:induction false} WrittenOverflows(file: seq<Byte>, window: nat, p: nat, l: Lex, ws: seq<seq<Byte>>)
    requires ws != [] && Has(file, p, Written(ws)) && !Fits(ws, window)
    requires l.f == INITIAL && l.start <= p < l.start + window
    ensures IsTooLong(Scan(file, window, p, l))
    decreases |ws|
  {
    hide Scan, Feed, Fits;
    var w, q := ws[0], p + |Escape(ws[0])| + 2;
    var quoted := [DQUOTE] + Escape(w) + [DQUOTE];
    var l1 := Behind(p, l, w);
    FitsHead(ws, window);
    Pieces(file, p, quoted, if |ws| == 1 then [SEMICOLON] else [SPACE] + Written(ws[1..]));
    hide Escape, Written;
    if |Escape(w)| >= window {
      QuotedOverflows(file, window, p, l, w);
    } else {
      ScanQuoted(file, window, p, l, w);
      if |Escape(w)| + 1 >= window {
        FullWindow(file, window, q, l1);
      } else {
        Pieces(file, q, [SPACE], Written(ws[1..]));
        ScanSpace(file, window, q, l1);
        if |Escape(w)| + 2 >= window {
          WrittenStarts(ws[1..]);
          FullWindow(file, window, q + 1, l1.(f := INITIAL));
        } else {
          WrittenOverflows(file, window, q + 1, l1.(f := INITIAL), ws[1..]);
        }
      }
    }
  }

  lemma WrittenStarts(ws: seq<seq<Byte>>)
    requires ws != []
    ensures Written(ws) != []
  {
  }

  /** With no bound on the words: the window is too small for some word, and then this is what is
      reported, or else the strings come back. */
  lemma ReadsBackIffFits(file: seq<Byte>, window: nat, p: nat, line: nat, ws: seq<seq<Byte>>)
    requires ws != [] && Has(file, p, Written(ws))
    ensures var t := ReadToken(file, window, p, line);
            && (IsTooLong(t) <==> !Fits(ws, window))
            && (Fits(ws, window) ==> t == Token(Ok, ws, p + |Written(ws)|, line + AllNewlines(ws)))
  {
    hide Scan, Written, Fits, AllNewlines;
    if Fits(ws, window) {
      ReadsBack(file, window, p, line, ws);
    } else if window == 0 {
      WrittenStarts(ws);
      FitsHead(ws, window);
      FullWindow(file, window, p, Begin(p, line));
    } else {
      WrittenOverflows(file, window, p, Begin(p, line), ws);
    }
  }

  lemma StreamStep(file: seq<Byte>, window: nat, p: nat, line: nat)
    requires p <= |file|
    ensures var t := ReadToken(file, window, p, line);
            t.code == Ok ==> Stream(file, window, p, line) == [t] + Stream(file, window, t.pos, t.line)
  {
    hide ReadToken;
  }

  /** A whole file of directives is read back directive by directive. */
  function WrittenAll(ds: seq<seq<seq<Byte>>>): seq<Byte>
    requires forall i :: 0 <= i < |ds| ==> ds[i] != []
  {
    if ds == [] then [] else Written(ds[0]) + WrittenAll(ds[1..])
  }

  lemma {:induction false} StreamReadsBack(file: seq<Byte>, window: nat, p: nat, line: nat, ds: seq<seq<seq<Byte>>>)
    requires forall i :: 0 <= i < |ds| ==> ds[i] != [] && Fits(ds[i], window)
    requires p <= |file| && file[p..] == WrittenAll(ds)
    ensures ReadAs(Stream(file, window, p, line), ds)
    decreases |ds|
  {
    hide Written, Stream, AllNewlines;
    if ds != [] {
      var d := ds[0];
      FirstDirective(file, window, p, line, ds);
      var q, l := p + |Written(d)|, line + AllNewlines(d);
      StreamReadsBack(file, window, q, l, ds[1..]);
      ReadAsStep(Token(Ok, d, q, l), Stream(file, window, q, l), ds);
    } else {
      StreamEnd(file, window, line);
    }
  }

  lemma StreamEnd(file: seq<Byte>, window: nat, line: nat)
    ensures Stream(file, window, |file|, line) == [Token(FileDone, [], |file|, line)]
  {
  }

  lemma ReadAsStep(t: Token, ts: seq<Token>, ds: seq<seq<seq<Byte>>>)
    requires ds != [] && t.code == Ok && t.args == ds[0] && ReadAs(ts, ds[1..])
    ensures ReadAs([t] + ts, ds)
  {
    assert ([t] + ts)[1..] == ts;
  }

  lemma FirstDirective(file: seq<Byte>, window: nat, p: nat, line: nat, ds: seq<seq<seq<Byte>>>)
    requires ds != [] && forall i :: 0 <= i < |ds| ==> ds[i] != [] && Fits(ds[i], window)
    requires p <= |file| && file[p..] == WrittenAll(ds)
    ensures var d := ds[0];
            var q, l := p + |Written(d)|, line + AllNewlines(d);
            && q <= |file| && file[q..] == WrittenAll(ds[1..])
            && Stream(file, window, p, line) == [Token(Ok, d, q, l)] + Stream(file, window, q, l)
  {
    hide ReadToken, Written, Fits, Stream;
    Tail(file, p, Written(ds[0]), WrittenAll(ds[1..]));
    ReadsBack(file, window, p, line, ds[0]);
    StreamStep(file, window, p, line);
  }

  /** The tokens are the directives in order, each ended by its semicolon, then the end of the
      file. */
  ghost predicate ReadAs(ts: seq<Token>, ds: seq<seq<seq<Byte>>>)
    decreases |ds|
  {
    if ds == [] then |ts| == 1 && ts[0].code == FileDone
    else ts != [] && ts[0].code == Ok && ts[0].args == ds[0] && ReadAs(ts[1..], ds[1..])
  }

  lemma Tail(file: seq<Byte>, p: nat, a: seq<Byte>, b: seq<Byte>)
    requires p <= |file| && file[p..] == a + b
    ensures Has(file, p, a) && p + |a| <= |file| && file[p + |a|..] == b
  {
    assert file[p..p + |a|] == (a + b)[..|a|];
    assert file[p + |a|..] == (a + b)[|a|..];
  }
}
