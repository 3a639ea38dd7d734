/** ca_conf_read_token as it runs: one pass over a buffer that slides along the file
    (src/ca_conf.c). */
module ConfFile {
  import opened Bytes
  import opened Wrappers
  import opened ConfToken

  datatype ParseKind = ParseFile | ParseBlock | ParseParam

  lemma Shift(done: seq<Byte>, out: Byte, more: seq<Byte>)
    ensures done + ([out] + more) == done + [out] + more
  {
  }

  class ConfFile {
    const file: seq<Byte>
    const buf: array<Byte>
    var offset: nat
    var pos: nat
    var last: nat
    var line: nat

    /** The buffer holds the 'last' bytes of the file before 'offset'. */
    ghost predicate Valid()
      reads this, buf
    {
      && pos <= last <= buf.Length && last <= offset <= |file|
      && forall j {:trigger buf[j]} :: 0 <= j < last ==> buf[j] == file[offset - last + j]
    }

    /** How far into the file the reader is. */
    function At(): (p: nat)
      requires Valid()
      reads this, buf
      ensures p <= |file|
    {
      offset - last + pos
    }

    /** The buffer that ca_conf_parse sets up for a file; the source's size is 4096. */
    constructor ForFile(file: seq<Byte>, window: nat)
      ensures Valid() && this.file == file && buf.Length == window && fresh(buf)
      ensures At() == 0 && line == 1
    {
      this.file := file;
      buf := new Byte[window];
      offset, pos, last, line := 0, 0, 0, 1;
    }

    /** The buffer that ca_conf_param sets up: it is the parameter itself, and there is no file
        behind it to read on from. */
    constructor ForParam(param: seq<Byte>)
      ensures Valid() && this.file == param && buf.Length == |param| && fresh(buf)
      ensures At() == 0 && line == 0
    {
      file := param;
      buf := new Byte[|param|](i requires 0 <= i < |param| => param[i]);
      offset, pos, last, line := |param|, 0, |param|, 0;
    }

    /** ca_memmove(b->start, start, len) */
    method MoveDown(start: nat, len: nat)
      requires start + len <= buf.Length
      modifies buf
      ensures forall j {:trigger buf[j]} :: 0 <= j < len ==> buf[j] == old(buf[start + j])
    {
      for i := 0 to len
        modifies buf
        invariant forall j {:trigger buf[j]} :: 0 <= j < i ==> buf[j] == old(buf[start + j])
        invariant forall j {:trigger buf[j]} :: i <= j < buf.Length ==> buf[j] == old(buf[j])
      {
        buf[i] := buf[start + i];
      }
    }

    /** ca_read_file, into the buffer from 'at' on. */
    method ReadFile(at: nat, size: nat)
      requires at + size <= buf.Length && offset + size <= |file|
      modifies buf, this`offset
      ensures forall j {:trigger buf[j]} :: 0 <= j < at ==> buf[j] == old(buf[j])
      ensures forall j {:trigger buf[j]} :: at <= j < at + size ==> buf[j] == file[old(offset) + j - at]
      ensures offset == old(offset) + size
    {
      for i := 0 to size
        modifies buf
        invariant forall j {:trigger buf[j]} :: 0 <= j < at ==> buf[j] == old(buf[j])
        invariant forall j {:trigger buf[j]} :: at <= j < at + i ==> buf[j] == file[offset + j - at]
      {
        buf[at + i] := file[offset + i];
      }
      offset := offset + size;
    }

    /** Lines 541-591: keep what was read since 'start' and fill up the rest of the buffer. At
        least one byte is read. */
    method Refill(start: nat)
      requires Valid() && pos == last && start <= pos && offset < |file|
      requires pos - start < buf.Length
      modifies this`offset, this`pos, this`last, buf
      ensures Valid() && At() == old(At()) && pos == old(pos) - start < last && offset > old(offset)
    {
      var len := pos - start;
      MoveDown(start, len);
      var size := |file| - offset;
      if size > buf.Length - len {
        size := buf.Length - len;
      }
      ReadFile(len, size);
      pos := len;
      last := pos + size;
    }

    /** Lines 742-778: the unescaped copy of what the buffer holds from 'start' to 'end', which
        is 'word', with a terminator. */
    method CopyWord(start: nat, end: nat, ghost word: seq<Byte>) returns (data: array<Byte>, len: nat)
      requires Valid() && start <= end < last
      requires word == file[offset - last + start..offset - last + end] && !OpenEscape(word)
      ensures fresh(data) && data.Length == end + 1 - start + 1
      ensures len == |Unescape(word)| && len < data.Length
      ensures data[..len] == Unescape(word) && data[len] == NUL
    {
      data := new Byte[end + 1 - start + 1];
      var src, dst := start, 0;
      len := 0;
      ghost var rest := word;
      while src < end
        invariant start <= src <= end && len == dst <= src - start
        invariant |rest| == end - src && forall j {:trigger rest[j]} :: 0 <= j < |rest| ==> rest[j] == buf[src + j]
        invariant !OpenEscape(rest)
        invariant data[..dst] + Unescape(rest) == Unescape(word)
        modifies data
      {
        UnescapeStep(rest);
        assert rest[0] == buf[src] && (|rest| > 1 ==> rest[1] == buf[src + 1]);
        var out, n := UnescapeOne(buf[src], buf[src + 1]);
        ghost var done := data[..dst];
        Shift(done, out, Unescape(rest[n..]));
        data[dst] := out;
        assert data[..dst + 1] == done + [out];
        dst := dst + 1;
        src := src + n;
        len := len + 1;
        rest := rest[n..];
      }
      data[dst] := NUL;
    }

    /** The switch on the character after a backslash: the byte to write and how many
        characters it takes. */
    static method UnescapeOne(ch: Byte, next: Byte) returns (out: Byte, n: nat)
      ensures n == if ch == BACKSLASH && EscapeValue(next).Some? then 2 else 1
      ensures out == if n == 2 then EscapeValue(next).value else ch
    {
      out, n := ch, 1;
      if ch == BACKSLASH {
        if next == DQUOTE || next == SQUOTE || next == BACKSLASH {
          out, n := next, 2;
        } else if next == 't' as int {
          out, n := TAB, 2;
        } else if next == 'r' as int {
          out, n := CR, 2;
        } else if next == 'n' as int {
          out, n := LF, 2;
        }
      }
    }

    /** ca_conf_read_token. Whatever the window, it returns what the tokenizer on the whole file
        returns, or reports a stretch that fills the window. */
    method ReadToken() returns (code: Code, args: seq<seq<Byte>>)
      requires Valid()
      modifies this`offset, this`pos, this`last, this`line, buf
      ensures Valid()
      ensures Token(code, args, At(), line) == ConfToken.ReadToken(file, buf.Length, old(At()), old(line))
    {
      var f, start: nat, startLine := INITIAL, pos, line;
      args := [];
      ghost var token := ConfToken.ReadToken(file, buf.Length, At(), line);

      while true
        invariant Valid() && 0 <= start <= pos
        invariant Consistent(file, At(), View(f, start, startLine, args))
        invariant Scan(file, buf.Length, At(), View(f, start, startLine, args)) == token
        decreases |file| - At()
      {
        var ret;
        ret, f, start, startLine, args := ReadChar(f, start, startLine, args);
        if ret.Some? {
          return ret.value, args;
        }
      }
    }

    /** One turn of the loop. */
    method ReadChar(f: Flags, start: nat, startLine: nat, args: seq<seq<Byte>>)
      returns (ret: Option<Code>, f': Flags, start': nat, startLine': nat, args': seq<seq<Byte>>)
      requires Valid() && start <= pos
      requires Consistent(file, At(), View(f, start, startLine, args))
      modifies this`offset, this`pos, this`last, this`line, buf
      ensures Valid() && start' <= pos
      ensures var was := old(Scan(file, buf.Length, At(), View(f, start, startLine, args)));
              if ret.Some? then was == Token(ret.value, args', At(), line)
              else
                && At() == old(At()) + 1
                && Consistent(file, At(), View(f', start', startLine', args'))
                && was == Scan(file, buf.Length, At(), View(f', start', startLine', args'))
    {
      f', startLine', args' := f, startLine, args;
      ret, start' := Fill(f, start, startLine, args);
      if ret == None {
        ghost var l := View(f, start', startLine, args);
        FeedConsistent(file, At(), l);
        ret, f', start', startLine', args' := Turn(f, start', startLine, args, l);
      }
    }

    /** The state of the scan, with 'start' as a position in the file. */
    ghost function View(f: Flags, start: nat, startLine: nat, args: seq<seq<Byte>>): Lex
      requires Valid()
      reads this, buf
    {
      Lex(f, offset - last + start, startLine, line, args)
    }

    /** Lines 519-592: see to it that there is a character to read, or return. */
    method Fill(f: Flags, start: nat, startLine: nat, args: seq<seq<Byte>>)
      returns (ret: Option<Code>, start': nat)
      requires Valid() && start <= pos
      modifies this`offset, this`pos, this`last, this`line, buf
      ensures Valid() && start' <= pos && At() == old(At())
      ensures ret == None ==> pos < last && line == old(line)
      ensures ret == None ==>
                View(f, start', startLine, args) == old(View(f, start, startLine, args))
      ensures var l := old(View(f, start, startLine, args));
              if ret.Some? then Scan(file, buf.Length, At(), l) == Token(ret.value, args, At(), line)
              else At() - l.start < buf.Length
    {
      ret, start' := None, start;
      if pos >= last {
        if offset >= |file| {
          ret := Some(if |args| > 0 || !f.lastSpace then Error(UnexpectedEnd) else FileDone);
          return;
        }
        if pos - start == buf.Length {
          line := startLine;
          ret := Some(Error(TooLong(Missing(f))));
          return;
        }
        Refill(start);
        start' := 0;
      }
    }

    /** Lines 594-790: one character. */
    method Turn(f: Flags, start: nat, startLine: nat, args: seq<seq<Byte>>, ghost l: Lex)
      returns (ret: Option<Code>, f': Flags, start': nat, startLine': nat, args': seq<seq<Byte>>)
      requires Valid() && start <= pos < last
      requires l == Lex(f, offset - last + start, startLine, line, args)
      requires Consistent(file, At(), l)
      modifies this`pos, this`line
      ensures Valid() && pos == old(pos) + 1 && start' <= pos
      ensures var o := Feed(file, old(At()), l);
              if ret.Some? then o.Return? && o.code == ret.value && o.l.args == args' && o.l.line == line
              else o == More(Lex(f', offset - last + start', startLine', line, args'))
    {
      var ch := buf[pos];
      ghost var p := At();
      pos := pos + 1;
      ret, f', start', startLine', args' := None, f, start, startLine, args;
      assert ch == file[p];
      if ch == LF {
        line := line + 1;
        f' := f'.(sharpComment := false);
      }
      if f'.sharpComment {
        return;
      }
      if f'.quoted {
        f' := f'.(quoted := false);
        return;
      }
      ret, f', start', startLine', args' := PlainChar(ch, f', start, startLine, args, p, l.(f := f', line := line));
    }

    /** Lines 613-790: a character that no comment or backslash hides. */
    method PlainChar(ch: Byte, f: Flags, start: nat, startLine: nat, args: seq<seq<Byte>>,
                     ghost p: nat, ghost l: Lex)
      returns (ret: Option<Code>, f': Flags, start': nat, startLine': nat, args': seq<seq<Byte>>)
      requires Valid() && start < pos && p == At() - 1 && ch == file[p] == buf[pos - 1]
      requires l == View(f, start, startLine, args)
      requires InWord(f) ==> !OpenEscape(file[l.start..p])
      requires f.lastSpace ==> !f.needSpace
      ensures start' <= pos
      ensures var o := if f.needSpace then ConfToken.AfterQuote(file, p, l)
                       else if f.lastSpace then ConfToken.Between(file, p, l)
                       else ConfToken.Inside(file, p, l);
              if ret.Some? then o.Return? && o.code == ret.value && o.l.args == args' && o.l.line == l.line
              else o == More(View(f', start', startLine', args'))
    {
      ret, f', start', startLine', args' := None, f, start, startLine, args;
      ghost var l1 := l;
      var between := f'.lastSpace;
      if f'.needSpace {
        ret, f', between := AfterQuoteMark(ch, f', file, p, l1);
        if ret.Some? || !between {
          return;
        }
        l1 := l1.(f := f');
      }
      if between {
        var skip;
        ret, f', skip := BetweenWords(ch, f', |args|, file, p, l1);
        if skip.Some? {
          start' := pos - 1 + skip.value;
          startLine' := line;
        }
      } else {
        ret, f', args' := InWordOrEnd(ch, f', start, args, p, l1);
      }
    }

    /** Lines 699-789. */
    method InWordOrEnd(ch: Byte, f: Flags, start: nat, args: seq<seq<Byte>>, ghost p: nat, ghost l: Lex)
      returns (ret: Option<Code>, f': Flags, args': seq<seq<Byte>>)
      requires Valid() && start < pos && p == At() - 1 && ch == file[p] == buf[pos - 1]
      requires l.f == f && l.start == offset - last + start && l.args == args
      requires !OpenEscape(file[l.start..p])
      ensures var o := ConfToken.Inside(file, p, l);
              if ret.Some? then o.Return? && o.code == ret.value && o.l.args == args' && o.l.line == l.line
              else o == More(l.(f := f', args := args'))
    {
      var found;
      ret, args' := None, args;
      f', found := InsideWord(ch, f, file, p, l);
      if found {
        var data, len := CopyWord(start, pos - 1, file[l.start..p]);
        args' := args + [data[..len]];
        if ch == SEMICOLON {
          ret := Some(Ok);
        } else if ch == LBRACE {
          ret := Some(BlockStart);
        }
      }
    }

    /** Lines 613-637. Either it returns, or the mode says to skip the character, or the
        character is to be read as one between words. */
    static method AfterQuoteMark(ch: Byte, f: Flags, ghost file: seq<Byte>, ghost p: nat, ghost l: Lex)
      returns (ret: Option<Code>, f': Flags, between: bool)
      requires p < |file| && ch == file[p] && l.f == f
      ensures ret.Some? ==> ConfToken.AfterQuote(file, p, l) == Return(ret.value, l)
      ensures ret == None ==>
                ConfToken.AfterQuote(file, p, l)
                == (if between then ConfToken.Between(file, p, l.(f := f')) else More(l.(f := f')))
      ensures ret == None && between ==> f'.lastSpace
    {
      ret, f', between := None, f, false;
      if IsBlank(ch) {
        f' := f.(lastSpace := true, needSpace := false);
        return;
      }
      if ch == SEMICOLON {
        return Some(Ok), f, false;
      }
      if ch == LBRACE {
        return Some(BlockStart), f, false;
      }
      if ch == RPAREN {
        return None, f.(lastSpace := true, needSpace := false), true;
      }
      return Some(Error(Unexpected(ch))), f, false;
    }

    /** Lines 639-695. 'skip' is how far behind the character a new 'start' lies, if there is one. */
    static method BetweenWords(ch: Byte, f: Flags, argc: nat, ghost file: seq<Byte>, ghost p: nat, ghost l: Lex)
      returns (ret: Option<Code>, f': Flags, skip: Option<nat>)
      requires p < |file| && ch == file[p] && l.f == f && |l.args| == argc
      ensures var o := ConfToken.Between(file, p, l);
              if ret.Some? then o.Return? && o.code == ret.value && o.l.args == l.args && o.l.line == l.line
              else if skip == None then o == More(l.(f := f'))
              else o == More(l.(f := f', start := p + skip.value, startLine := l.line))
      ensures skip.Some? ==> skip.value <= 1
    {
      ret, f', skip := None, f, None;
      if IsBlank(ch) {
        return;
      }
      skip := Some(0);
      if ch == SEMICOLON || ch == LBRACE {
        if argc == 0 {
          ret := Some(Error(Unexpected(ch)));
        } else if ch == LBRACE {
          ret := Some(BlockStart);
        } else {
          ret := Some(Ok);
        }
      } else if ch == RBRACE {
        ret := Some(if argc != 0 then Error(Unexpected(ch)) else BlockDone);
      } else if ch == SHARP {
        f' := f.(sharpComment := true);
      } else if ch == BACKSLASH {
        f' := f.(quoted := true, lastSpace := false);
      } else if ch == DQUOTE {
        skip := Some(1);
        f' := f.(dQuoted := true, lastSpace := false);
      } else if ch == SQUOTE {
        skip := Some(1);
        f' := f.(sQuoted := true, lastSpace := false);
      } else {
        f' := f.(lastSpace := false);
      }
    }

    /** Lines 699-734. */
    static method InsideWord(ch: Byte, f: Flags, ghost file: seq<Byte>, ghost p: nat, ghost l: Lex)
      returns (f': Flags, found: bool)
      requires l.start <= p < |file| && ch == file[p] && l.f == f
      ensures ConfToken.Inside(file, p, l)
           == if found then ConfToken.EndWord(file, p, l.(f := f')) else More(l.(f := f'))
    {
      f', found := f, false;
      if ch == LBRACE && f.variable {
        return;
      }
      f' := f.(variable := false);
      if ch == BACKSLASH {
        f' := f'.(quoted := true);
      } else if ch == DOLLAR {
        f' := f'.(variable := true);
      } else if f.dQuoted {
        if ch == DQUOTE {
          f' := f'.(dQuoted := false, needSpace := true);
          found := true;
        }
      } else if f.sQuoted {
        if ch == SQUOTE {
          f' := f'.(sQuoted := false, needSpace := true);
          found := true;
        }
      } else if IsBlank(ch) || ch == SEMICOLON || ch == LBRACE {
        f' := f'.(lastSpace := true);
        found := true;
      }
    }

    /** The loop of ca_conf_parse on an open file or a parameter. 'accept' stands for the checks
        and the handler of a directive; it may depend on the position, so on everything before. */
    method Parse(kind: ParseKind, accept: Token -> bool) returns (ok: bool)
      requires Valid()
      modifies this`offset, this`pos, this`last, this`line, buf
      ensures Valid() && At() >= old(At())
      ensures var ts := old(Stream(file, buf.Length, At(), line));
              if kind == ParseBlock then Closes(ts, ok, Stream(file, buf.Length, At(), line), accept)
              else ok <==> Legal(ts, 0, kind != ParseParam, accept)
      decreases |file| - At()
    {
      ghost var ts := Stream(file, buf.Length, At(), line);
      ghost var blocks := kind != ParseParam;
      while true
        invariant Valid() && old(At()) <= At()
        invariant Alike(ts, Stream(file, buf.Length, At(), line), blocks, accept)
        decreases |file| - At()
      {
        ghost var here := Stream(file, buf.Length, At(), line);
        AcceptsHere(here, blocks, accept);
        var code, args := ReadToken();
        if code.Error? {
          return false;
        }
        if code == BlockDone {
          return kind == ParseBlock;
        }
        if code == FileDone {
          return kind != ParseBlock;
        }
        if code == BlockStart && kind == ParseParam {
          return false;
        }
        if !accept(Token(code, args, At(), line)) {
          return false;
        }
        if code == BlockStart {
          var inner := Parse(ParseBlock, accept);
          if !inner {
            return false;
          }
        }
      }
    }
  }
}
