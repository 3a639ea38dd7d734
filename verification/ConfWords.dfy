/** Directives as they are written in a configuration file, words bare or in quotes of either kind, with escapes
    and variables, and what the tokenizer of src/ca_conf.c reads them as. */
module ConfWords {
  import opened Bytes
  import opened Wrappers
  import opened ConfToken
  import opened ConfLimits
  import opened ConfRoundTrip

  // --- how a directive is written ----------------------------------------------------------

  /** A byte that stands for itself, or one behind a backslash. */
  datatype Item = Plain(b: Byte) | Escaped(b: Byte)

  datatype Style = Bare | Single | Double

  /** A comment up to the end of its line, and the blanks behind it. */
  datatype Note = Note(text: seq<Byte>, blanks: seq<Byte>)

  /** What may stand between words. */
  datatype Gap = Gap(blanks: seq<Byte>, notes: seq<Note>)

  /** A word and what is behind it. */
  datatype Word = Word(style: Style, items: seq<Item>, gap: Gap)

  function ItemText(i: Item): seq<Byte> {
    match i
    case Plain(b) => [b]
    case Escaped(b) => [BACKSLASH, b]
  }

  function Text(items: seq<Item>): seq<Byte> {
    if items == [] then [] else ItemText(items[0]) + Text(items[1..])
  }

  function Spelled(w: Word): seq<Byte> {
    match w.style
    case Bare => Text(w.items)
    case Single => [SQUOTE] + Text(w.items) + [SQUOTE]
    case Double => [DQUOTE] + Text(w.items) + [DQUOTE]
  }

  function NoteText(n: Note): seq<Byte> {
    ['#' as int] + (n.text + ([10] + n.blanks))
  }

  function NotesText(notes: seq<Note>): seq<Byte> {
    if notes == [] then [] else NoteText(notes[0]) + NotesText(notes[1..])
  }

  function GapText(g: Gap): seq<Byte> {
    g.blanks + NotesText(g.notes)
  }

  function Line(ws: seq<Word>): seq<Byte> {
    if ws == [] then [] else Spelled(ws[0]) + GapText(ws[0].gap) + Line(ws[1..])
  }

  /** What it stands for: a tabulator, a carriage return, a line feed; the quotes and the backslash
      themselves; before any other byte the backslash stays. */
  function ItemMeaning(i: Item): seq<Byte> {
    match i
    case Plain(b) => [b]
    case Escaped(b) =>
      if b == 't' as int then [9]
      else if b == 'r' as int then [13]
      else if b == 'n' as int then [10]
      else if b == '"' as int || b == '\'' as int || b == '\\' as int then [b]
      else ['\\' as int, b]
  }

  function Meaning(items: seq<Item>): seq<Byte> {
    if items == [] then [] else ItemMeaning(items[0]) + Meaning(items[1..])
  }

  function Meanings(ws: seq<Word>): seq<seq<Byte>> {
    if ws == [] then [] else [Meaning(ws[0].items)] + Meanings(ws[1..])
  }

  predicate Blanks(s: seq<Byte>) {
    forall k :: 0 <= k < |s| ==> s[k] == 32 || s[k] == 9 || s[k] == 13 || s[k] == 10
  }

  /** A dollar opens a variable, and the braces right behind it belong to it. */
  predicate InVariable(variable: bool, i: Item) {
    i == Plain('$' as int) || (i == Plain('{' as int) && variable)
  }

  /** What may stand inside a word of this style. */
  predicate Stays(style: Style, variable: bool, i: Item) {
    i.Plain? ==>
      && i.b != '\\' as int
      && match style
         case Double => i.b != '"' as int
         case Single => i.b != '\'' as int
         case Bare => !Blanks([i.b]) && i.b != ';' as int && (i.b == '{' as int ==> variable)
  }

  predicate AllStay(style: Style, variable: bool, items: seq<Item>)
    decreases |items|
  {
    items != [] ==> Stays(style, variable, items[0]) && AllStay(style, InVariable(variable, items[0]), items[1..])
  }

  /** The word ends inside a variable, where a brace would belong to it. */
  predicate EndsInVariable(variable: bool, items: seq<Item>)
    decreases |items|
  {
    if items == [] then variable else EndsInVariable(InVariable(variable, items[0]), items[1..])
  }

  /** What may start a bare word; a dollar there opens no variable. */
  predicate Starts(i: Item) {
    i.Plain? ==>
      && Stays(Bare, false, i)
      && i.b != '}' as int && i.b != '#' as int && i.b != '"' as int && i.b != '\'' as int
  }

  predicate WellFormed(w: Word) {
    if w.style.Bare? then w.items != [] && Starts(w.items[0]) && AllStay(Bare, false, w.items[1..])
    else AllStay(w.style, false, w.items)
  }

  // --- inside a word -----------------------------------------------------------------------

  /** The modes inside a word, between escapes. */
  function Mode(style: Style, variable: bool): Flags {
    Flags(false, false, false, variable, false, style.Single?, style.Double?)
  }

  lemma ScanItem(file: seq<Byte>, window: nat, p: nat, l: Lex, style: Style, variable: bool, i: Item)
    requires l.f == Mode(style, variable) && l.start <= p && Stays(style, variable, i)
    requires Has(file, p, ItemText(i)) && p + |ItemText(i)| - l.start <= window
    ensures Scan(file, window, p, l)
         == Scan(file, window, p + |ItemText(i)|,
                 l.(f := Mode(style, InVariable(variable, i)), line := l.line + Newlines(ItemText(i))))
  {
    hide Scan, Feed, Stays, Newlines;
    match i
    case Plain(b) =>
      assert file[p] == [b][0];
      PlainScans(file, window, p, l, style, variable, b);
    case Escaped(b) =>
      assert file[p] == [BACKSLASH, b][0] && file[p + 1] == [BACKSLASH, b][1];
      EscapeScans(file, window, p, l, b);
      NewlinesAdd([BACKSLASH], [b]);
      assert [BACKSLASH] + [b] == [BACKSLASH, b];
      BackslashIsNone();
  }

  lemma BackslashIsNone()
    ensures Newlines([BACKSLASH]) == 0
  {
  }

  lemma PlainScans(file: seq<Byte>, window: nat, p: nat, l: Lex, style: Style, variable: bool, b: Byte)
    requires l.f == Mode(style, variable) && l.start <= p < |file| && Stays(style, variable, Plain(b))
    requires file[p] == b && p - l.start < window
    ensures Scan(file, window, p, l)
         == Scan(file, window, p + 1,
                 l.(f := Mode(style, InVariable(variable, Plain(b))), line := l.line + Newlines([b])))
  {
    assert !Blanks([b]) ==> !IsBlank(b) by {
      assert [b][0] == b;
    }
    assert Feed(file, p, l)
        == More(l.(f := Mode(style, InVariable(variable, Plain(b))), line := l.line + Newlines([b])));
  }

  lemma EscapeScans(file: seq<Byte>, window: nat, p: nat, l: Lex, b: Byte)
    requires !l.f.sharpComment && !l.f.quoted && !l.f.needSpace && !l.f.lastSpace && l.start <= p
    requires p + 1 < |file| && file[p] == BACKSLASH && file[p + 1] == b && p + 2 - l.start <= window
    ensures Scan(file, window, p, l)
         == Scan(file, window, p + 2, l.(f := l.f.(variable := false), line := l.line + Newlines([b])))
  {
    var l1 := l.(f := l.f.(variable := false, quoted := true));
    assert Feed(file, p, l) == More(l1);
    assert Feed(file, p + 1, l1) == More(l.(f := l.f.(variable := false), line := l.line + Newlines([b])));
    assert Scan(file, window, p, l) == Scan(file, window, p + 1, l1);
  }

  lemma {:induction false} NewlinesAdd(a: seq<Byte>, b: seq<Byte>)
    ensures Newlines(a + b) == Newlines(a) + Newlines(b)
    decreases |a|
  {
    if a == [] {
      assert a + b == b;
    } else {
      assert (a + b)[1..] == a[1..] + b;
      NewlinesAdd(a[1..], b);
    }
  }

  lemma {:induction false} ScanItems(file: seq<Byte>, window: nat, p: nat, l: Lex, style: Style, variable: bool,
                                     items: seq<Item>)
    requires l.f == Mode(style, variable) && l.start <= p && AllStay(style, variable, items)
    requires Has(file, p, Text(items)) && p + |Text(items)| - l.start <= window
    ensures Scan(file, window, p, l)
         == Scan(file, window, p + |Text(items)|,
                 l.(f := Mode(style, EndsInVariable(variable, items)), line := l.line + Newlines(Text(items))))
    decreases |items|
  {
    hide Scan, Feed, Mode, Stays, Has, Newlines, ItemText, InVariable;
    if items == [] {
      NoNewlines();
    } else {
      var i, rest := items[0], items[1..];
      Pieces(file, p, ItemText(i), Text(rest));
      NewlinesAdd(ItemText(i), Text(rest));
      ScanItem(file, window, p, l, style, variable, i);
      var v := InVariable(variable, i);
      var l1 := l.(f := Mode(style, v), line := l.line + Newlines(ItemText(i)));
      ScanItems(file, window, p + |ItemText(i)|, l1, style, v, rest);
    }
  }

  lemma NoNewlines()
    ensures Newlines([]) == 0
  {
  }

  /** The unescape loop gives what the items stand for. */
  lemma {:induction false} UnescapeText(items: seq<Item>)
    requires forall k :: 0 <= k < |items| && items[k].Plain? ==> items[k].b != '\\' as int
    ensures Unescape(Text(items)) == Meaning(items)
    decreases |items|
  {
    if items != [] {
      UnescapeText(items[1..]);
      var t, rest := Text(items), Text(items[1..]);
      if items[0].Plain? {
        assert t[0] == items[0].b && t[1..] == rest;
      } else {
        assert t[0] == BACKSLASH && t[1] == items[0].b && t[2..] == rest;
        assert t[1..][0] == items[0].b && t[1..][1..] == rest;
        UnescapePair(t, items[0].b, rest);
      }
    }
  }

  lemma UnescapePair(t: seq<Byte>, b: Byte, rest: seq<Byte>)
    requires t == [BACKSLASH, b] + rest
    ensures Unescape(t) == ItemMeaning(Escaped(b)) + Unescape(rest)
  {
    assert t[0] == BACKSLASH && t[1] == b && t[2..] == rest;
    assert t[1..] == [b] + rest;
  }

  lemma {:induction false} NoBackslash(style: Style, variable: bool, items: seq<Item>)
    requires AllStay(style, variable, items)
    ensures forall k :: 0 <= k < |items| && items[k].Plain? ==> items[k].b != '\\' as int
    decreases |items|
  {
    if items != [] {
      var v := InVariable(variable, items[0]);
      NoBackslash(style, v, items[1..]);
      assert Stays(style, variable, items[0]);
      assert forall k :: 0 < k < |items| ==> items[k] == items[1..][k - 1];
    }
  }

  lemma MeaningOfWord(w: Word)
    requires WellFormed(w)
    ensures Unescape(Text(w.items)) == Meaning(w.items)
  {
    hide Text, Meaning, Stays;
    if w.style.Bare? {
      NoBackslash(Bare, false, w.items[1..]);
      if w.items[0].Plain? {
        FirstByte(w.items[0]);
      }
      forall k | 0 <= k < |w.items| && w.items[k].Plain?
        ensures w.items[k].b != '\\' as int
      {
        assert k > 0 ==> w.items[k] == w.items[1..][k - 1];
      }
    } else {
      NoBackslash(w.style, false, w.items);
    }
    UnescapeText(w.items);
  }

  lemma FirstByte(i: Item)
    requires Starts(i) && i.Plain?
    ensures !IsBlank(i.b) && i.b != SEMICOLON && i.b != LBRACE && i.b != RBRACE && i.b != SHARP && i.b != BACKSLASH
    ensures i.b != DQUOTE && i.b != SQUOTE
  {
    assert [i.b][0] == i.b;
  }

  // --- a word and what is behind it ----------------------------------------------------------

  /** From the start of a word to behind its closing quote. */
  function Reach(w: Word): nat {
    |Text(w.items)| + if w.style.Bare? then 0 else 1
  }

  /** The blanks stay within the window, of which so much is used before them, and so does every comment,
      counted from its own beginning. */
  predicate Clear(g: Gap, used: nat, window: nat) {
    Blanks(g.blanks) && used + |g.blanks| < window && forall k :: 0 <= k < |g.notes| ==> NoteFits(g.notes[k], window)
  }

  predicate NoteFits(n: Note, window: nat) {
    10 !in n.text && Blanks(n.blanks) && 2 + |n.text| + |n.blanks| < window
  }

  /** Where the scanner stands behind a word: a bare one has not ended yet. */
  function Stopped(p: nat, l: Lex, w: Word): Lex
    requires WellFormed(w)
  {
    if w.style.Bare? then
      Lex(Mode(Bare, EndsInVariable(false, w.items[1..])), p, l.line, l.line + Newlines(Spelled(w)), l.args)
    else
      Lex(INITIAL.(needSpace := true, lastSpace := false), p + 1, l.line, l.line + Newlines(Spelled(w)),
          l.args + [Meaning(w.items)])
  }

  lemma ScanStart(file: seq<Byte>, window: nat, p: nat, l: Lex, i: Item)
    requires l.f == INITIAL && l.start <= p < l.start + window && Starts(i)
    requires Has(file, p, ItemText(i)) && |ItemText(i)| <= window
    ensures Scan(file, window, p, l)
         == Scan(file, window, p + |ItemText(i)|,
                 Lex(Mode(Bare, false), p, l.line, l.line + Newlines(ItemText(i)), l.args))
  {
    assert file[p] == ItemText(i)[0];
    match i
    case Plain(b) =>
      FirstByte(i);
      assert Feed(file, p, l) == More(Lex(Mode(Bare, false), p, l.line, l.line, l.args));
    case Escaped(b) =>
      assert file[p + 1] == ItemText(i)[1];
      var l1 := Lex(Mode(Bare, false).(quoted := true), p, l.line, l.line, l.args);
      assert Feed(file, p, l) == More(l1);
      assert Feed(file, p + 1, l1) == More(Lex(Mode(Bare, false), p, l.line, l.line + Newlines([b]), l.args));
      assert Newlines(ItemText(i)) == Newlines([b]);
      assert Scan(file, window, p, l) == Scan(file, window, p + 1, l1);
  }

  lemma ScanBare(file: seq<Byte>, window: nat, p: nat, l: Lex, w: Word)
    requires l.f == INITIAL && l.start <= p < l.start + window && WellFormed(w) && w.style.Bare?
    requires Has(file, p, Spelled(w)) && Reach(w) <= window
    ensures Scan(file, window, p, l) == Scan(file, window, p + |Spelled(w)|, Stopped(p, l, w))
  {
    hide Scan, Has, Newlines, ItemText, Starts, AllStay, Mode;
    var i, rest := w.items[0], w.items[1..];
    Pieces(file, p, ItemText(i), Text(rest));
    NewlinesAdd(ItemText(i), Text(rest));
    ScanStart(file, window, p, l, i);
    var l1 := Lex(Mode(Bare, false), p, l.line, l.line + Newlines(ItemText(i)), l.args);
    ScanItems(file, window, p + |ItemText(i)|, l1, Bare, false, rest);
  }

  function Mark(style: Style): Byte {
    if style.Single? then SQUOTE else DQUOTE
  }

  lemma ScanOpening(file: seq<Byte>, window: nat, p: nat, l: Lex, style: Style)
    requires l.f == INITIAL && l.start <= p < l.start + window && !style.Bare? && Has(file, p, [Mark(style)])
    ensures Scan(file, window, p, l)
         == Scan(file, window, p + 1, Lex(Mode(style, false), p + 1, l.line, l.line, l.args))
  {
    assert file[p] == [Mark(style)][0];
  }

  lemma ScanClosing(file: seq<Byte>, window: nat, p: nat, q: nat, line: nat, l: Lex, w: Word, variable: bool)
    requires WellFormed(w) && !w.style.Bare? && Has(file, p + 1, Text(w.items)) && q == p + 1 + |Text(w.items)|
    requires Has(file, q, [Mark(w.style)]) && |Text(w.items)| < window
    ensures Scan(file, window, q, Lex(Mode(w.style, variable), p + 1, l.line, line, l.args))
         == Scan(file, window, q + 1, Lex(INITIAL.(needSpace := true, lastSpace := false), p + 1, l.line, line,
                                          l.args + [Meaning(w.items)]))
  {
    assert file[q] == [Mark(w.style)][0];
    MeaningOfWord(w);
    hide Text, Meaning, WellFormed;
  }

  lemma QuotedParts(file: seq<Byte>, p: nat, w: Word)
    requires WellFormed(w) && !w.style.Bare? && Has(file, p, Spelled(w))
    ensures var m, t := [Mark(w.style)], Text(w.items);
            && Has(file, p, m) && Has(file, p + 1, t) && Has(file, p + 1 + |t|, m)
            && |Spelled(w)| == |t| + 2 && Newlines(Spelled(w)) == Newlines(t)
            && Reach(w) == |t| + 1 && AllStay(w.style, false, w.items)
  {
    hide Has, AllStay;
    var m, t := [Mark(w.style)], Text(w.items);
    assert Spelled(w) == m + t + m;
    Pieces(file, p, m + t, m);
    Pieces(file, p, m, t);
    NewlinesAdd(m + t, m);
    NewlinesAdd(m, t);
    assert Newlines(m) == 0;
  }

  lemma StoppedBehindMark(p: nat, l: Lex, w: Word, n: nat)
    requires WellFormed(w) && !w.style.Bare? && n == Newlines(Spelled(w))
    ensures Stopped(p, l, w) == Lex(INITIAL.(needSpace := true, lastSpace := false), p + 1, l.line, l.line + n,
                                    l.args + [Meaning(w.items)])
  {
    hide Meaning, Newlines, Spelled;
  }

  lemma ScanInQuotes(file: seq<Byte>, window: nat, p: nat, l: Lex, w: Word)
    requires l.f == INITIAL && l.start <= p < l.start + window && WellFormed(w) && !w.style.Bare?
    requires Has(file, p, Spelled(w)) && Reach(w) <= window
    ensures Scan(file, window, p, l) == Scan(file, window, p + |Spelled(w)|, Stopped(p, l, w))
  {
    hide *;
    var t := Text(w.items);
    QuotedParts(file, p, w);
    StoppedBehindMark(p, l, w, Newlines(t));
    ScanOpening(file, window, p, l, w.style);
    var l1 := Lex(Mode(w.style, false), p + 1, l.line, l.line, l.args);
    ScanItems(file, window, p + 1, l1, w.style, false, w.items);
    ScanClosing(file, window, p, p + 1 + |t|, l.line + Newlines(t), l, w, EndsInVariable(false, w.items));
  }

  lemma ScanSpelled(file: seq<Byte>, window: nat, p: nat, l: Lex, w: Word)
    requires l.f == INITIAL && l.start <= p < l.start + window && WellFormed(w)
    requires Has(file, p, Spelled(w)) && Reach(w) <= window
    ensures Scan(file, window, p, l) == Scan(file, window, p + |Spelled(w)|, Stopped(p, l, w))
  {
    hide *;
    if w.style.Bare? {
      ScanBare(file, window, p, l, w);
    } else {
      ScanInQuotes(file, window, p, l, w);
    }
  }

  /** A word is complete: the scanner is between words again, or the directive has ended. */
  function Complete(p: nat, l: Lex, w: Word): Lex
    requires WellFormed(w)
  {
    Lex(INITIAL, p + if w.style.Bare? then 0 else 1, l.line, l.line + Newlines(Spelled(w)), l.args + [Meaning(w.items)])
  }

  lemma BareEndsAtBlank(file: seq<Byte>, window: nat, q: nat, l: Lex, variable: bool)
    requires l.f == Mode(Bare, variable) && l.start <= q < |file| && q - l.start < window && Blanks([file[q]])
    ensures Scan(file, window, q, l)
         == Scan(file, window, q + 1,
                 l.(f := INITIAL, line := l.line + Newlines([file[q]]), args := l.args + [Unescape(file[l.start..q])]))
  {
    assert IsBlank([file[q]][0]);
    hide Unescape;
  }

  lemma BlankBehindBare(file: seq<Byte>, window: nat, p: nat, l: Lex, w: Word, q: nat)
    requires WellFormed(w) && w.style.Bare? && Has(file, p, Spelled(w)) && q == p + |Spelled(w)| && Reach(w) < window
    requires q < |file| && Blanks([file[q]])
    ensures var c := Complete(p, l, w);
            Scan(file, window, q, Stopped(p, l, w))
            == Scan(file, window, q + 1, c.(line := c.line + Newlines([file[q]])))
  {
    MeaningOfWord(w);
    assert file[p..q] == Text(w.items);
    BareLex(p, l, w);
    hide Text, Meaning, WellFormed, EndsInVariable, Scan, Unescape, Newlines, Mode, Complete, Stopped;
    BareEndsAtBlank(file, window, q, Stopped(p, l, w), EndsInVariable(false, w.items[1..]));
  }

  lemma BareLex(p: nat, l: Lex, w: Word)
    requires WellFormed(w) && w.style.Bare?
    ensures var stopped, c := Stopped(p, l, w), Complete(p, l, w);
            && w.items != [] && stopped.f == Mode(Bare, EndsInVariable(false, w.items[1..])) && stopped.start == p
            && c == stopped.(f := INITIAL, args := stopped.args + [Meaning(w.items)])
  {
    hide Text, Meaning, EndsInVariable, Newlines;
  }

  lemma BlankBehindMark(file: seq<Byte>, window: nat, p: nat, l: Lex, w: Word, q: nat)
    requires WellFormed(w) && !w.style.Bare? && Has(file, p, Spelled(w)) && q == p + |Spelled(w)| && Reach(w) < window
    requires q < |file| && Blanks([file[q]])
    ensures var c := Complete(p, l, w);
            Scan(file, window, q, Stopped(p, l, w))
            == Scan(file, window, q + 1, c.(line := c.line + Newlines([file[q]])))
  {
    assert IsBlank([file[q]][0]);
    assert |Spelled(w)| == Reach(w) + 1;
    hide Text, Meaning, WellFormed, Spelled;
    var c := Complete(p, l, w);
    assert Feed(file, q, Stopped(p, l, w)) == More(c.(line := c.line + Newlines([file[q]])));
  }

  lemma BlankBehind(file: seq<Byte>, window: nat, p: nat, l: Lex, w: Word, q: nat)
    requires WellFormed(w) && Has(file, p, Spelled(w)) && q == p + |Spelled(w)| && Reach(w) < window
    requires q < |file| && Blanks([file[q]])
    ensures var c := Complete(p, l, w);
            Scan(file, window, q, Stopped(p, l, w))
            == Scan(file, window, q + 1, c.(line := c.line + Newlines([file[q]])))
  {
    hide *;
    if w.style.Bare? {
      BlankBehindBare(file, window, p, l, w, q);
    } else {
      BlankBehindMark(file, window, p, l, w, q);
    }
  }

  /** The character that ends the directive right behind a word. */
  lemma EndBehindBare(file: seq<Byte>, window: nat, p: nat, l: Lex, w: Word, q: nat)
    requires WellFormed(w) && w.style.Bare? && Has(file, p, Spelled(w)) && q == p + |Spelled(w)| && Reach(w) < window
    requires q < |file| && Ends(w, file[q])
    ensures var c := Complete(p, l, w);
            Scan(file, window, q, Stopped(p, l, w)) == Token(Ending(file[q]), c.args, q + 1, c.line)
  {
    MeaningOfWord(w);
    hide Text, Meaning, WellFormed, Starts, AllStay, EndsInVariable;
    assert file[p..q] == Text(w.items);
    var c := Complete(p, l, w);
    assert Feed(file, q, Stopped(p, l, w)).Return?;
  }

  lemma EndBehindMark(file: seq<Byte>, window: nat, p: nat, l: Lex, w: Word, q: nat)
    requires WellFormed(w) && !w.style.Bare? && Has(file, p, Spelled(w)) && q == p + |Spelled(w)| && Reach(w) < window
    requires q < |file| && Ends(w, file[q])
    ensures var c := Complete(p, l, w);
            Scan(file, window, q, Stopped(p, l, w)) == Token(Ending(file[q]), c.args, q + 1, c.line)
  {
    assert |Spelled(w)| == Reach(w) + 1;
    hide Text, Meaning, WellFormed, Spelled;
    var c := Complete(p, l, w);
    assert Feed(file, q, Stopped(p, l, w)).Return?;
  }

  lemma EndBehind(file: seq<Byte>, window: nat, p: nat, l: Lex, w: Word, q: nat)
    requires WellFormed(w) && Has(file, p, Spelled(w)) && q == p + |Spelled(w)| && Reach(w) < window
    requires q < |file| && Ends(w, file[q])
    ensures var c := Complete(p, l, w);
            Scan(file, window, q, Stopped(p, l, w)) == Token(Ending(file[q]), c.args, q + 1, c.line)
  {
    hide *;
    if w.style.Bare? {
      EndBehindBare(file, window, p, l, w, q);
    } else {
      EndBehindMark(file, window, p, l, w, q);
    }
  }

  /** A brace that belongs to a variable does not end the word. */
  predicate Ends(w: Word, ch: Byte)
    requires WellFormed(w)
  {
    ch == ';' as int || (ch == '{' as int && (w.style.Bare? ==> !EndsInVariable(false, w.items[1..])))
  }

  function Ending(ch: Byte): Code {
    if ch == '{' as int then BlockStart else Ok
  }

  // --- blanks --------------------------------------------------------------------------------

  lemma {:induction false} ScanBlanks(file: seq<Byte>, window: nat, p: nat, l: Lex, gap: seq<Byte>)
    requires l.f == INITIAL && l.start <= p && Blanks(gap) && Has(file, p, gap) && p + |gap| - l.start <= window
    ensures Scan(file, window, p, l) == Scan(file, window, p + |gap|, l.(line := l.line + Newlines(gap)))
    decreases |gap|
  {
    hide Scan, Feed, Newlines, Has;
    if gap == [] {
      NoNewlines();
    } else {
      assert gap == [gap[0]] + gap[1..];
      Pieces(file, p, [gap[0]], gap[1..]);
      NewlinesAdd([gap[0]], gap[1..]);
      ScanBlank(file, window, p, l, gap[0]);
      ScanBlanks(file, window, p + 1, l.(line := l.line + Newlines([gap[0]])), gap[1..]);
    }
  }

  lemma ScanBlank(file: seq<Byte>, window: nat, p: nat, l: Lex, b: Byte)
    requires l.f == INITIAL && l.start <= p < l.start + window && Has(file, p, [b]) && IsBlank(b)
    ensures Scan(file, window, p, l) == Scan(file, window, p + 1, l.(line := l.line + Newlines([b])))
  {
    assert file[p] == [b][0];
    assert Feed(file, p, l) == More(l.(line := l.line + Newlines([b])));
  }

  lemma CompleteIs(p: nat, l: Lex, w: Word)
    requires WellFormed(w)
    ensures var c := Complete(p, l, w);
            && c.f == INITIAL && c.start <= p + |Spelled(w)| == c.start + Reach(w)
            && c.args == l.args + [Meaning(w.items)] && c.line == l.line + Newlines(Spelled(w))
            && |Spelled(w)| > 0
  {
    assert w.items != [] ==> |Text(w.items)| == |ItemText(w.items[0])| + |Text(w.items[1..])|;
    hide Newlines, Text, Meaning;
  }

  lemma NoteParts(file: seq<Byte>, p: nat, n: Note)
    requires Has(file, p, NoteText(n))
    ensures p < |file| && file[p] == SHARP && Has(file, p + 1, n.text)
    ensures var q := p + 1 + |n.text|; q < |file| && file[q] == LF && Has(file, q + 1, n.blanks)
    ensures |NoteText(n)| == 2 + |n.text| + |n.blanks|
    ensures 10 !in n.text ==> Newlines(NoteText(n)) == 1 + Newlines(n.blanks)
  {
    hide Has, Newlines;
    var tail := [10] + n.blanks;
    Pieces(file, p, ['#' as int], n.text + tail);
    Pieces(file, p + 1, n.text, tail);
    Pieces(file, p + 1 + |n.text|, [10], n.blanks);
    HasFirst(file, p, '#' as int);
    HasFirst(file, p + 1 + |n.text|, 10);
    NewlinesAdd(['#' as int], n.text + tail);
    NewlinesAdd(n.text, tail);
    NewlinesAdd([10], n.blanks);
    NewlinesOfOne();
    if 10 !in n.text {
      NewlinesNone(n.text);
    }
  }

  lemma NewlinesOfOne()
    ensures Newlines(['#' as int]) == 0 && Newlines([10]) == 1
  {
  }

  lemma {:induction false} NewlinesNone(s: seq<Byte>)
    requires 10 !in s
    ensures Newlines(s) == 0
    decreases |s|
  {
    if s != [] {
      NewlinesNone(s[1..]);
    }
  }

  lemma NoteOpens(file: seq<Byte>, window: nat, p: nat, l: Lex)
    requires l.f == INITIAL && l.start <= p < l.start + window && p < |file| && file[p] == SHARP
    ensures Scan(file, window, p, l)
         == Scan(file, window, p + 1, Lex(INITIAL.(sharpComment := true), p, l.line, l.line, l.args))
  {
  }

  lemma ScanNote(file: seq<Byte>, window: nat, p: nat, l: Lex, n: Note)
    requires l.f == INITIAL && l.start <= p < l.start + window && Has(file, p, NoteText(n)) && NoteFits(n, window)
    ensures Scan(file, window, p, l)
         == Scan(file, window, p + |NoteText(n)|,
                 Lex(INITIAL, p, l.line, l.line + Newlines(NoteText(n)), l.args))
  {
    hide Scan, Feed, Newlines, NoteText;
    NoteParts(file, p, n);
    var q := p + 1 + |n.text|;
    NoteOpens(file, window, p, l);
    var l1 := Lex(INITIAL.(sharpComment := true), p, l.line, l.line, l.args);
    CommentScans(file, window, p + 1, q, l1);
    CommentCloses(file, window, q, l1);
    ScanBlanks(file, window, q + 1, l1.(f := INITIAL, line := l.line + 1), n.blanks);
  }

  lemma {:induction false} ScanNotes(file: seq<Byte>, window: nat, p: nat, l: Lex, notes: seq<Note>)
    returns (l1: Lex)
    requires l.f == INITIAL && l.start <= p < l.start + window && Has(file, p, NotesText(notes))
    requires forall k :: 0 <= k < |notes| ==> NoteFits(notes[k], window)
    ensures var q := p + |NotesText(notes)|;
            && l1.f == INITIAL && l1.start <= q < l1.start + window
            && l1.args == l.args && l1.line == l.line + Newlines(NotesText(notes))
            && Scan(file, window, p, l) == Scan(file, window, q, l1)
    decreases |notes|
  {
    l1 := l;
    hide Scan, Newlines, NoteText, Has;
    if notes == [] {
      NoNewlines();
    } else {
      var n, rest := notes[0], NotesText(notes[1..]);
      Pieces(file, p, NoteText(n), rest);
      NewlinesAdd(NoteText(n), rest);
      NoteParts(file, p, n);
      assert NoteFits(n, window);
      ScanNote(file, window, p, l, n);
      l1 := Lex(INITIAL, p, l.line, l.line + Newlines(NoteText(n)), l.args);
      l1 := ScanNotes(file, window, p + |NoteText(n)|, l1, notes[1..]);
    }
  }

  /** Blanks and comments between words. */
  lemma ScanGap(file: seq<Byte>, window: nat, p: nat, l: Lex, g: Gap) returns (l1: Lex)
    requires l.f == INITIAL && l.start <= p && Has(file, p, GapText(g)) && Clear(g, p - l.start, window)
    ensures var q := p + |GapText(g)|;
            && l1.f == INITIAL && l1.start <= q < l1.start + window
            && l1.args == l.args && l1.line == l.line + Newlines(GapText(g))
            && Scan(file, window, p, l) == Scan(file, window, q, l1)
  {
    hide Scan, Newlines, NotesText, Has;
    Pieces(file, p, g.blanks, NotesText(g.notes));
    NewlinesAdd(g.blanks, NotesText(g.notes));
    ScanBlanks(file, window, p, l, g.blanks);
    l1 := ScanNotes(file, window, p + |g.blanks|, l.(line := l.line + Newlines(g.blanks)), g.notes);
  }

  /** A word with a gap behind it that starts with a blank. */
  lemma ScanGapped(file: seq<Byte>, window: nat, p: nat, l: Lex, w: Word) returns (l1: Lex)
    requires l.f == INITIAL && l.start <= p < l.start + window && WellFormed(w) && w.gap.blanks != []
    requires Has(file, p, Spelled(w) + GapText(w.gap)) && Clear(w.gap, Reach(w), window)
    ensures var q := p + |Spelled(w)| + |GapText(w.gap)|;
            && l1.f == INITIAL && l1.start <= q < l1.start + window
            && l1.args == l.args + [Meaning(w.items)] && l1.line == l.line + Newlines(Spelled(w) + GapText(w.gap))
            && Scan(file, window, p, l) == Scan(file, window, q, l1)
  {
    hide *;
    var q, b, rest := p + |Spelled(w)|, w.gap.blanks[0], w.gap.(blanks := w.gap.blanks[1..]);
    GapParts(file, p, w, window);
    CompleteIs(p, l, w);
    var c := Complete(p, l, w);
    l1 := c.(line := c.line + Newlines([b]));
    ScanSpelled(file, window, p, l, w);
    BlankBehind(file, window, p, l, w, q);
    l1 := ScanGap(file, window, q + 1, l1, rest);
  }

  lemma GapParts(file: seq<Byte>, p: nat, w: Word, window: nat)
    requires Has(file, p, Spelled(w) + GapText(w.gap)) && w.gap.blanks != [] && Clear(w.gap, Reach(w), window)
    ensures var q, b, rest := p + |Spelled(w)|, w.gap.blanks[0], w.gap.(blanks := w.gap.blanks[1..]);
            && Has(file, p, Spelled(w)) && q < |file| && file[q] == b && Has(file, q + 1, GapText(rest))
            && Blanks([b]) && Clear(rest, Reach(w) + 1, window) && Reach(w) < window
            && |GapText(w.gap)| == 1 + |GapText(rest)|
            && Newlines(Spelled(w) + GapText(w.gap)) == Newlines(Spelled(w)) + Newlines([b]) + Newlines(GapText(rest))
  {
    hide *;
    var q, b, rest := p + |Spelled(w)|, w.gap.blanks[0], w.gap.(blanks := w.gap.blanks[1..]);
    GapSplits(w.gap);
    ClearRest(w.gap, Reach(w), window);
    Pieces(file, p, Spelled(w), GapText(w.gap));
    Pieces(file, q, [b], GapText(rest));
    NewlinesAdd(Spelled(w), GapText(w.gap));
    NewlinesAdd([b], GapText(rest));
    HasFirst(file, q, b);
  }

  lemma ClearRest(g: Gap, used: nat, window: nat)
    requires g.blanks != [] && Clear(g, used, window)
    ensures Blanks([g.blanks[0]]) && Clear(g.(blanks := g.blanks[1..]), used + 1, window) && used < window
  {
    assert Blanks(g.blanks);
    hide NoteFits;
  }

  lemma GapSplits(g: Gap)
    requires g.blanks != []
    ensures GapText(g) == [g.blanks[0]] + GapText(g.(blanks := g.blanks[1..]))
  {
    assert g.blanks == [g.blanks[0]] + g.blanks[1..];
  }

  // --- directives ----------------------------------------------------------------------------

  /** Words with a blank and then more blanks and comments behind each, all within the window. */
  predicate Gapped(ws: seq<Word>, window: nat) {
    forall k :: 0 <= k < |ws| ==>
      WellFormed(ws[k]) && ws[k].gap.blanks != [] && Clear(ws[k].gap, Reach(ws[k]), window)
  }

  lemma {:induction false} ScanWords(file: seq<Byte>, window: nat, p: nat, l: Lex, ws: seq<Word>) returns (l1: Lex)
    requires l.f == INITIAL && l.start <= p < l.start + window && Has(file, p, Line(ws)) && Gapped(ws, window)
    ensures var q := p + |Line(ws)|;
            && l1.f == INITIAL && l1.start <= q < l1.start + window
            && l1.args == l.args + Meanings(ws) && l1.line == l.line + Newlines(Line(ws))
            && Scan(file, window, p, l) == Scan(file, window, q, l1)
    decreases |ws|
  {
    hide *;
    if ws == [] {
      NoWords();
      l1 := l;
    } else {
      LineParts(file, p, ws);
      GappedParts(ws, window);
      l1 := ScanGapped(file, window, p, l, ws[0]);
      l1 := ScanWords(file, window, p + |Spelled(ws[0])| + |GapText(ws[0].gap)|, l1, ws[1..]);
      assert l.args + [Meaning(ws[0].items)] + Meanings(ws[1..]) == l.args + Meanings(ws);
    }
  }

  lemma NoWords()
    ensures Line([]) == [] && Meanings([]) == [] && Newlines([]) == 0
  {
  }

  lemma LineParts(file: seq<Byte>, p: nat, ws: seq<Word>)
    requires ws != [] && Has(file, p, Line(ws))
    ensures var first, rest := Spelled(ws[0]) + GapText(ws[0].gap), Line(ws[1..]);
            && Has(file, p, first) && Has(file, p + |Spelled(ws[0])| + |GapText(ws[0].gap)|, rest)
            && |Line(ws)| == |Spelled(ws[0])| + |GapText(ws[0].gap)| + |rest|
            && Newlines(Line(ws)) == Newlines(first) + Newlines(rest)
            && Meanings(ws) == [Meaning(ws[0].items)] + Meanings(ws[1..])
  {
    hide Spelled, Has, Newlines, Meaning, GapText;
    Pieces(file, p, Spelled(ws[0]) + GapText(ws[0].gap), Line(ws[1..]));
    NewlinesAdd(Spelled(ws[0]) + GapText(ws[0].gap), Line(ws[1..]));
  }

  lemma GappedParts(ws: seq<Word>, window: nat)
    requires ws != [] && Gapped(ws, window)
    ensures WellFormed(ws[0]) && ws[0].gap.blanks != [] && Clear(ws[0].gap, Reach(ws[0]), window)
    ensures Gapped(ws[1..], window)
  {
    hide WellFormed, Clear, Reach;
    assert forall k :: 0 < k < |ws| ==> ws[k] == ws[1..][k - 1];
  }

  /** From the beginning of a token: blanks, then words with blanks behind each. */
  lemma ScanToBoundary(file: seq<Byte>, window: nat, p: nat, line: nat, lead: Gap, ws: seq<Word>)
    returns (l: Lex)
    requires Has(file, p, GapText(lead) + Line(ws)) && Clear(lead, 0, window) && Gapped(ws, window)
    ensures var q := p + |GapText(lead)| + |Line(ws)|;
            && l.f == INITIAL && l.start <= q < l.start + window && q <= |file|
            && l.args == Meanings(ws) && l.line == line + Newlines(GapText(lead) + Line(ws))
            && p <= |file| && ReadToken(file, window, p, line) == Scan(file, window, q, l)
  {
    hide Line, Meanings, Gapped, Clear, GapText, Newlines, Scan, Feed;
    Pieces(file, p, GapText(lead), Line(ws));
    NewlinesAdd(GapText(lead), Line(ws));
    var l0 := Begin(p, line);
    l := ScanGap(file, window, p, l0, lead);
    l := ScanWords(file, window, p + |GapText(lead)|, l, ws);
    assert [] + Meanings(ws) == Meanings(ws);
  }

  /** What a token is that has so many words complete when it comes to this character, or to the end. */
  function Boundary(some: bool, next: seq<Byte>): (code: Option<Code>) {
    if next == [] then Some(if some then Error(UnexpectedEnd) else FileDone)
    else if next[0] == ';' as int then Some(if some then Ok else Error(Unexpected(next[0])))
    else if next[0] == '{' as int then Some(if some then BlockStart else Error(Unexpected(next[0])))
    else if next[0] == '}' as int then Some(if some then Error(Unexpected(next[0])) else BlockDone)
    else None
  }

  lemma ScanBoundary(file: seq<Byte>, window: nat, q: nat, l: Lex)
    requires l.f == INITIAL && l.start <= q < l.start + window && q <= |file|
    requires Boundary(l.args != [], file[q..]).Some?
    ensures Scan(file, window, q, l)
         == Token(Boundary(l.args != [], file[q..]).value, l.args, if q == |file| then q else q + 1, l.line)
  {
    if q < |file| {
      assert file[q..][0] == file[q];
    }
  }

  lemma {:induction false} AsManyMeanings(ws: seq<Word>)
    ensures |Meanings(ws)| == |ws|
    decreases |ws|
  {
    if ws != [] {
      AsManyMeanings(ws[1..]);
    }
  }

  /** Between words: a semicolon ends a directive and a left brace opens a block, if there are words; a right
      brace closes a block and the file may end, if there are none. All words have been read as what they
      stand for. */
  lemma {:induction false} ReadsToBoundary(file: seq<Byte>, window: nat, p: nat, line: nat, lead: Gap,
                                           ws: seq<Word>)
    requires Has(file, p, GapText(lead) + Line(ws)) && Clear(lead, 0, window) && Gapped(ws, window)
    requires var q := p + |GapText(lead)| + |Line(ws)|; q <= |file| && Boundary(ws != [], file[q..]).Some?
    ensures var q := p + |GapText(lead)| + |Line(ws)|;
            ReadToken(file, window, p, line)
            == Token(Boundary(ws != [], file[q..]).value, Meanings(ws), if q == |file| then q else q + 1,
                     line + Newlines(GapText(lead) + Line(ws)))
  {
    hide *;
    var l := ScanToBoundary(file, window, p, line, lead, ws);
    AsManyMeanings(ws);
    ScanBoundary(file, window, p + |GapText(lead)| + |Line(ws)|, l);
  }

  /** The same when the directive ends right behind its last word. */
  lemma {:induction false} ReadsToEnd(file: seq<Byte>, window: nat, p: nat, line: nat, lead: Gap,
                                      ws: seq<Word>, w: Word, end: Byte)
    requires Has(file, p, GapText(lead) + Line(ws) + Spelled(w) + [end]) && Clear(lead, 0, window)
    requires Gapped(ws, window) && WellFormed(w) && Reach(w) < window && Ends(w, end)
    ensures ReadToken(file, window, p, line)
         == Token(Ending(end), Meanings(ws) + [Meaning(w.items)], p + |GapText(lead)| + |Line(ws)| + |Spelled(w)| + 1,
                  line + Newlines(GapText(lead) + Line(ws)) + Newlines(Spelled(w)))
  {
    hide *;
    var q := p + |GapText(lead)| + |Line(ws)|;
    EndParts(file, p, GapText(lead) + Line(ws), w, end);
    assert |GapText(lead) + Line(ws)| == |GapText(lead)| + |Line(ws)|;
    var l := ScanToBoundary(file, window, p, line, lead, ws);
    CompleteIs(q, l, w);
    ScanSpelled(file, window, q, l, w);
    EndBehind(file, window, q, l, w, q + |Spelled(w)|);
  }

  lemma EndParts(file: seq<Byte>, p: nat, s: seq<Byte>, w: Word, end: Byte)
    requires Has(file, p, s + Spelled(w) + [end])
    ensures Has(file, p, s) && Has(file, p + |s|, Spelled(w))
    ensures var e := p + |s| + |Spelled(w)|; e < |file| && file[e] == end
  {
    hide Spelled;
    Pieces(file, p, s + Spelled(w), [end]);
    Pieces(file, p, s, Spelled(w));
    assert file[p + |s| + |Spelled(w)|] == [end][0];
  }

  /** A file that ends inside a word, or right behind it. */
  lemma ReadsUnfinished(file: seq<Byte>, window: nat, p: nat, line: nat, lead: Gap, ws: seq<Word>, w: Word)
    requires Has(file, p, GapText(lead) + Line(ws) + Spelled(w))
    requires |file| == p + |GapText(lead)| + |Line(ws)| + |Spelled(w)|
    requires Clear(lead, 0, window) && Gapped(ws, window) && WellFormed(w) && Reach(w) < window
    ensures ReadToken(file, window, p, line).code == Error(UnexpectedEnd)
  {
    hide Spelled, Line, Scan, Clear, GapText, Gapped, WellFormed, Reach, Newlines;
    var q := p + |GapText(lead)| + |Line(ws)|;
    Pieces(file, p, GapText(lead) + Line(ws), Spelled(w));
    var l := ScanToBoundary(file, window, p, line, lead, ws);
    ScanSpelled(file, window, q, l, w);
    CompleteIs(q, l, w);
    EndOfFile(file, window, q, l, w);
  }

  lemma EndOfFile(file: seq<Byte>, window: nat, p: nat, l: Lex, w: Word)
    requires WellFormed(w) && p + 1 <= |file|
    ensures var l1 := Stopped(p, l, w);
            l1.start <= |file| && Scan(file, window, |file|, l1).code == Error(UnexpectedEnd)
  {
    hide Spelled, Newlines, Meaning;
  }

  /** Behind a closing quote only a blank, the end of the directive or a right parenthesis is accepted. */
  lemma ReadsStray(file: seq<Byte>, window: nat, p: nat, line: nat, lead: Gap, ws: seq<Word>, w: Word, ch: Byte)
    requires Has(file, p, GapText(lead) + Line(ws) + Spelled(w) + [ch]) && Clear(lead, 0, window)
    requires Gapped(ws, window) && WellFormed(w) && !w.style.Bare? && Reach(w) < window
    requires !Blanks([ch]) && ch != ';' as int && ch != '{' as int && ch != ')' as int
    ensures ReadToken(file, window, p, line).code == Error(Unexpected(ch))
  {
    hide Spelled, Line, Scan, Clear, GapText, Gapped, WellFormed, Newlines, Reach;
    var q := p + |GapText(lead)| + |Line(ws)|;
    EndParts(file, p, GapText(lead) + Line(ws), w, ch);
    assert |GapText(lead) + Line(ws)| == |GapText(lead)| + |Line(ws)|;
    var l := ScanToBoundary(file, window, p, line, lead, ws);
    ScanSpelled(file, window, q, l, w);
    StrayBehindMark(file, window, q, l, w, ch);
  }

  lemma StrayBehindMark(file: seq<Byte>, window: nat, p: nat, l: Lex, w: Word, ch: Byte)
    requires WellFormed(w) && !w.style.Bare? && Reach(w) < window
    requires var q := p + |Spelled(w)|; q < |file| && file[q] == ch
    requires !Blanks([ch]) && ch != ';' as int && ch != '{' as int && ch != ')' as int
    ensures Stopped(p, l, w).start <= p + |Spelled(w)|
    ensures Scan(file, window, p + |Spelled(w)|, Stopped(p, l, w)).code == Error(Unexpected(ch))
  {
    assert |Spelled(w)| == Reach(w) + 1;
    assert !IsBlank(ch) by {
      assert [ch][0] == ch;
    }
    hide Spelled, Newlines, Meaning, Text, WellFormed;
    assert Feed(file, p + |Spelled(w)|, Stopped(p, l, w)).Return?;
  }

  /** A right parenthesis behind a closing quote starts a bare word. */
  lemma ParenBehindMark(file: seq<Byte>, window: nat, p: nat, l: Lex, w: Word, q: nat)
    requires WellFormed(w) && !w.style.Bare? && Reach(w) < window && q == p + |Spelled(w)| < |file|
    requires file[q] == ')' as int
    ensures var c := Complete(p, l, w);
            && Stopped(p, l, w).start <= q
            && Scan(file, window, q, Stopped(p, l, w))
               == Scan(file, window, q + 1, Lex(Mode(Bare, false), q, c.line, c.line, c.args))
  {
    assert |Spelled(w)| == Reach(w) + 1;
    hide Spelled, Newlines, Meaning, Text, WellFormed;
    var c := Complete(p, l, w);
    assert Feed(file, q, Stopped(p, l, w)) == More(Lex(Mode(Bare, false), q, c.line, c.line, c.args));
  }

  lemma ParenParts(file: seq<Byte>, q: nat, v: Word)
    requires WellFormed(v) && v.style.Bare? && v.items[0] == Plain(')' as int) && Has(file, q, Spelled(v))
    ensures v.items != [] && q < |file| && file[q] == ')' as int && Has(file, q + 1, Text(v.items[1..]))
    ensures Reach(v) == |Spelled(v)| == 1 + |Text(v.items[1..])| && AllStay(Bare, false, v.items[1..])
    ensures Newlines(Spelled(v)) == Newlines(Text(v.items[1..]))
  {
    hide Has, AllStay, Starts;
    var rest := Text(v.items[1..]);
    assert Spelled(v) == [')' as int] + rest;
    Pieces(file, q, [')' as int], rest);
    NewlinesAdd([')' as int], rest);
    assert Newlines([')' as int]) == 0;
    HasFirst(file, q, ')' as int);
  }

  lemma HasFirst(file: seq<Byte>, q: nat, b: Byte)
    ensures Has(file, q, [b]) ==> q < |file| && file[q] == b
  {
    if Has(file, q, [b]) {
      assert file[q] == [b][0];
    }
  }

  /** So a directive may end with a word in quotes and, right behind it, a bare one that starts with a right
      parenthesis. */
  lemma ReadsParen(file: seq<Byte>, window: nat, p: nat, line: nat, lead: Gap, ws: seq<Word>, w: Word, v: Word,
                   end: Byte)
    requires Has(file, p, GapText(lead) + Line(ws) + Spelled(w) + Spelled(v) + [end]) && Clear(lead, 0, window)
    requires Gapped(ws, window) && WellFormed(w) && !w.style.Bare? && Reach(w) < window
    requires WellFormed(v) && v.style.Bare? && v.items[0] == Plain(')' as int) && Reach(v) < window && Ends(v, end)
    ensures var t := ReadToken(file, window, p, line);
            && t.code == Ending(end) && t.args == Meanings(ws) + [Meaning(w.items), Meaning(v.items)]
            && t.pos == p + |GapText(lead)| + |Line(ws)| + |Spelled(w)| + |Spelled(v)| + 1
  {
    hide *;
    var q := p + |GapText(lead)| + |Line(ws)|;
    var r := q + |Spelled(w)|;
    EndParts(file, p, GapText(lead) + Line(ws) + Spelled(w), v, end);
    assert |GapText(lead) + Line(ws) + Spelled(w)| == |GapText(lead)| + |Line(ws)| + |Spelled(w)|;
    Pieces(file, p, GapText(lead) + Line(ws), Spelled(w));
    assert |GapText(lead) + Line(ws)| == |GapText(lead)| + |Line(ws)|;
    var l := ScanToBoundary(file, window, p, line, lead, ws);
    CompleteIs(q, l, w);
    ScanSpelled(file, window, q, l, w);
    ParenParts(file, r, v);
    ParenBehindMark(file, window, q, l, w, r);
    var c := Complete(q, l, w);
    var l1 := Lex(Mode(Bare, false), r, c.line, c.line, c.args);
    ScanItems(file, window, r + 1, l1, Bare, false, v.items[1..]);
    StoppedBare(r, c, v);
    CompleteIs(r, c, v);
    EndBehind(file, window, r, c, v, r + |Spelled(v)|);
    assert Meanings(ws) + [Meaning(w.items)] + [Meaning(v.items)]
        == Meanings(ws) + [Meaning(w.items), Meaning(v.items)];
  }

  lemma StoppedBare(p: nat, l: Lex, w: Word)
    requires WellFormed(w) && w.style.Bare?
    ensures Stopped(p, l, w)
         == Lex(Mode(Bare, EndsInVariable(false, w.items[1..])), p, l.line, l.line + Newlines(Spelled(w)), l.args)
  {
  }

  // --- words that are too long -----------------------------------------------------------------

  /** The quote that is reported as missing. */
  function MissingMark(style: Style): Option<Byte> {
    match style
    case Bare => None
    case Single => Some('\'' as int)
    case Double => Some('"' as int)
  }

  lemma FullAt(file: seq<Byte>, window: nat, p: nat, l: Lex)
    requires l.start + window <= p < |file|
    ensures Scan(file, window, p, l) == Token(Error(TooLong(Missing(l.f))), l.args, p, l.startLine)
  {
  }

  lemma HasWithin(file: seq<Byte>, p: nat, s: seq<Byte>)
    requires Has(file, p, s)
    ensures p + |s| <= |file|
  {
  }

  lemma FullInWord(file: seq<Byte>, window: nat, p: nat, l: Lex, style: Style, variable: bool)
    requires l.f == Mode(style, variable) && l.start + window <= p < |file|
    ensures Scan(file, window, p, l) == Token(Error(TooLong(MissingMark(style))), l.args, p, l.startLine)
  {
    FullAt(file, window, p, l);
  }

  lemma EscapeStraddles(file: seq<Byte>, window: nat, p: nat, l: Lex, style: Style, variable: bool)
    requires l.f == Mode(style, variable) && l.start <= p && p + 1 < |file| && file[p] == BACKSLASH
    requires p + 1 - l.start == window
    ensures Scan(file, window, p, l) == Token(Error(TooLong(MissingMark(style))), l.args, p + 1, l.startLine)
  {
    FullAt(file, window, p + 1, l.(f := l.f.(variable := false, quoted := true)));
  }

  lemma {:induction false} ItemsOverflow(file: seq<Byte>, window: nat, p: nat, l: Lex, style: Style, variable: bool,
                                         items: seq<Item>)
    requires l.f == Mode(style, variable) && l.start <= p <= l.start + window && AllStay(style, variable, items)
    requires Has(file, p, Text(items)) && p + |Text(items)| < |file| && p + |Text(items)| >= l.start + window
    ensures Scan(file, window, p, l)
         == Token(Error(TooLong(MissingMark(style))), l.args, l.start + window, l.startLine)
    decreases |items|
  {
    hide *;
    HasWithin(file, p, Text(items));
    if p == l.start + window {
      FullInWord(file, window, p, l, style, variable);
    } else {
      ItemsHead(file, p, style, variable, items);
      var i, rest := items[0], items[1..];
      if p + |ItemText(i)| <= l.start + window {
        ScanItem(file, window, p, l, style, variable, i);
        var v := InVariable(variable, i);
        var l1 := l.(f := Mode(style, v), line := l.line + Newlines(ItemText(i)));
        ItemsOverflow(file, window, p + |ItemText(i)|, l1, style, v, rest);
      } else {
        EscapeStraddles(file, window, p, l, style, variable);
      }
    }
  }

  lemma ItemsHead(file: seq<Byte>, p: nat, style: Style, variable: bool, items: seq<Item>)
    requires AllStay(style, variable, items) && Has(file, p, Text(items)) && Text(items) != []
    ensures items != [] && Stays(style, variable, items[0])
    ensures AllStay(style, InVariable(variable, items[0]), items[1..])
    ensures Has(file, p, ItemText(items[0])) && Has(file, p + |ItemText(items[0])|, Text(items[1..]))
    ensures |Text(items)| == |ItemText(items[0])| + |Text(items[1..])|
    ensures 1 <= |ItemText(items[0])| <= 2
    ensures |ItemText(items[0])| == 2 ==> p + 1 < |file| && file[p] == BACKSLASH
  {
    hide Stays, InVariable, Has;
    var i := items[0];
    Pieces(file, p, ItemText(i), Text(items[1..]));
    if i.Escaped? {
      Pieces(file, p, [BACKSLASH], [i.b]);
      HasFirst(file, p, BACKSLASH);
      HasFirst(file, p + 1, i.b);
    }
  }

  /** The beginning of a word, without the closing quote. */
  function Opened(w: Word): seq<Byte> {
    if w.style.Bare? then Text(w.items) else [Mark(w.style)] + Text(w.items)
  }

  lemma EscapeStarts(file: seq<Byte>, p: nat, l: Lex, b: Byte)
    requires l.f == INITIAL && l.start == p && Has(file, p, [BACKSLASH, b]) && p + 1 < |file|
    ensures Scan(file, 1, p, l) == Token(Error(TooLong(None)), l.args, p + 1, l.line)
  {
    assert file[p] == file[p..p + 2][0];
    FullAt(file, 1, p + 1, Lex(Mode(Bare, false).(quoted := true), p, l.line, l.line, l.args));
  }

  lemma BareOverflows(file: seq<Byte>, window: nat, p: nat, l: Lex, w: Word)
    requires l.f == INITIAL && l.start <= p < l.start + window && WellFormed(w) && w.style.Bare?
    requires Has(file, p, Opened(w)) && p + |Opened(w)| < |file| && window <= |Text(w.items)|
    ensures var t := Scan(file, window, p, l);
            t.code == Error(TooLong(None)) && t.args == l.args && t.pos == p + window && t.line == l.line
  {
    var i, rest := w.items[0], w.items[1..];
    Pieces(file, p, ItemText(i), Text(rest));
    if |ItemText(i)| > window {
      EscapeStarts(file, p, l, i.b);
    } else {
      hide Scan, Feed, Has, Newlines, ItemText, Starts, AllStay, Mode;
      ScanStart(file, window, p, l, i);
      var l1 := Lex(Mode(Bare, false), p, l.line, l.line + Newlines(ItemText(i)), l.args);
      ItemsOverflow(file, window, p + |ItemText(i)|, l1, Bare, false, rest);
    }
  }

  lemma MarkedOverflows(file: seq<Byte>, window: nat, p: nat, l: Lex, w: Word)
    requires l.f == INITIAL && l.start <= p < l.start + window && WellFormed(w) && !w.style.Bare?
    requires Has(file, p, Opened(w)) && p + |Opened(w)| < |file| && window <= |Text(w.items)|
    ensures var t := Scan(file, window, p, l);
            && t.code == Error(TooLong(MissingMark(w.style))) && t.args == l.args && t.pos == p + 1 + window
            && t.line == l.line
  {
    Pieces(file, p, [Mark(w.style)], Text(w.items));
    hide Scan, Feed, Has, AllStay, Mode, Text;
    ScanOpening(file, window, p, l, w.style);
    var l1 := Lex(Mode(w.style, false), p + 1, l.line, l.line, l.args);
    ItemsOverflow(file, window, p + 1, l1, w.style, false, w.items);
  }

  /** A word that fills the window is reported as too long, with the quote that is missing, if any, and the line
      on which it starts. */
  lemma ReadsTooLong(file: seq<Byte>, window: nat, p: nat, line: nat, lead: Gap, ws: seq<Word>, w: Word)
    requires Has(file, p, GapText(lead) + Line(ws) + Opened(w)) && Clear(lead, 0, window) && Gapped(ws, window)
    requires p + |GapText(lead)| + |Line(ws)| + |Opened(w)| < |file|
    requires WellFormed(w) && window <= |Text(w.items)|
    ensures var t := ReadToken(file, window, p, line);
            && t.code == Error(TooLong(MissingMark(w.style))) && t.args == Meanings(ws)
            && t.line == line + Newlines(GapText(lead) + Line(ws))
  {
    hide *;
    var q := p + |GapText(lead)| + |Line(ws)|;
    assert |GapText(lead) + Line(ws)| == |GapText(lead)| + |Line(ws)|;
    Pieces(file, p, GapText(lead) + Line(ws), Opened(w));
    var l := ScanToBoundary(file, window, p, line, lead, ws);
    if w.style.Bare? {
      BareOverflows(file, window, q, l, w);
      NoMark();
    } else {
      MarkedOverflows(file, window, q, l, w);
    }
  }

  lemma NoMark()
    ensures MissingMark(Bare) == None
  {
  }
}
