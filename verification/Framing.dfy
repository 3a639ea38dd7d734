/** One exchange with a server, ca_select_send_and_recv of src/ca_acquisition.c, over a socket that
    takes and gives as much as it likes. */
module Framing {
  import opened Bytes
  import opened Wrappers
  import opened Format
  import opened Formatter
  import opened Numbers
  import opened Power

  // --- the wire format ---------------------------------------------------------------------

  const HEADER_LEN: nat := 10

  /** "%010z" */
  const HEADER_FORMAT: seq<Byte> := [PERCENT, ZERO, '1' as int, ZERO, 'z' as int]

  /** The length, zero-padded to ten digits and cut after ten. */
  function Header(n: nat): (h: seq<Byte>)
    ensures |h| == HEADER_LEN
  {
    Padded(ZERO, HEADER_LEN, Digits(n, Dec))[..HEADER_LEN]
  }

  function Frame(body: seq<Byte>): seq<Byte> {
    Header(|body|) + body
  }

  // --- the socket --------------------------------------------------------------------------

  datatype Answer = Moved(n: nat) | Again | Interrupted | Failed

  class Signals {
    var quit: bool

    constructor ()
      ensures !quit
    {
      quit := false;
    }
  }

  /** A connection. Each call on it consumes an answer: so many bytes moved, a timeout, an
      interruption, or a failure; and a signal to quit may have arrived meanwhile. */
  class Socket {
    const server: nat
    var open: bool
    var script: seq<(Answer, bool)>
    var last: Answer
    var sent: seq<Byte>
    var incoming: seq<Byte>

    constructor (server: nat, script: seq<(Answer, bool)>, incoming: seq<Byte>)
      ensures this.server == server && this.script == script && this.incoming == incoming
      ensures open && sent == []
    {
      this.server, this.script, this.incoming := server, script, incoming;
      open, sent, last := true, [], Failed;
    }

    method Answered(signals: Signals)
      modifies this`script, this`last, signals
      ensures old(script) == [] ==> last == Failed && script == [] && signals.quit == old(signals.quit)
      ensures old(script) != [] ==>
                last == old(script[0].0) && script == old(script[1..])
                && signals.quit == (old(signals.quit) || old(script[0].1))
    {
      if script == [] {
        last := Failed;
      } else {
        last, signals.quit, script := script[0].0, signals.quit || script[0].1, script[1..];
      }
    }

    /** tcp_send_timeout: some prefix of the data is accepted. */
    method Send(data: seq<Byte>, signals: Signals) returns (n: nat)
      modifies this`script, this`last, this`sent, signals
      ensures last.Moved? ==> n <= |data| && sent == old(sent) + data[..n]
      ensures !last.Moved? ==> sent == old(sent)
      ensures old(script) != [] ==> last == old(script[0].0) && script == old(script[1..])
      ensures old(script) == [] ==> last.Failed? && script == []
      ensures old(signals.quit) ==> signals.quit
    {
      n := 0;
      Answered(signals);
      if last.Moved? {
        n := if last.n < |data| then last.n else |data|;
        sent := sent + data[..n];
      }
    }

    /** tcp_recv_timeout: some prefix of what the server sent is delivered. */
    method Recv(buf: array<Byte>, at: nat, signals: Signals) returns (n: nat)
      requires at <= buf.Length
      modifies this`script, this`last, this`incoming, signals, buf
      ensures last.Moved? ==>
                at + n <= buf.Length && n <= |old(incoming)| && incoming == old(incoming)[n..]
                && (forall j :: at <= j < at + n ==> buf[j] == old(incoming)[j - at])
      ensures !last.Moved? ==> incoming == old(incoming)
      ensures forall j :: 0 <= j < at ==> buf[j] == old(buf[j])
      ensures old(script) != [] ==> last == old(script[0].0) && script == old(script[1..])
      ensures old(script) == [] ==> last.Failed? && script == []
      ensures old(signals.quit) ==> signals.quit
    {
      n := 0;
      Answered(signals);
      if last.Moved? {
        n := if last.n < |incoming| then last.n else |incoming|;
        n := if n < buf.Length - at then n else buf.Length - at;
        forall j | at <= j < at + n {
          buf[j] := incoming[j - at];
        }
        incoming := incoming[n..];
      }
    }
  }

  // --- the exchange ------------------------------------------------------------------------

  datatype Code = OK | AGAIN | ERROR

  /** The last call timed out or failed, a quit interrupted it, or the reply is another one. */
  predicate Spoiled(sock: Socket, incoming: seq<Byte>, quit: bool)
    reads sock`last
  {
    || sock.last.Again? || sock.last.Failed? || (sock.last.Interrupted? && quit)
    || (sock.last.Moved? && |incoming| >= 3 && !(OK_LINE <= incoming))
  }

  /** The answers that are left of a script. */
  predicate LeftOf(script: seq<(Answer, bool)>, whole: seq<(Answer, bool)>) {
    |script| <= |whole| && script == whole[|whole| - |script|..]
  }

  /** What the last call answered is the latest answer used of the script, or the failure beyond its end. */
  predicate Answering(sock: Socket, script: seq<(Answer, bool)>)
    reads sock`script, sock`last
  {
    && LeftOf(sock.script, script)
    && ((sock.script == [] && sock.last.Failed?)
        || (|sock.script| < |script| && sock.last == script[|script| - |sock.script| - 1].0))
  }

  lemma AnsweringWhole(sock: Socket, script: seq<(Answer, bool)>, whole: seq<(Answer, bool)>)
    requires Answering(sock, script) && LeftOf(script, whole)
    ensures Answering(sock, whole)
  {
    var skipped, used := |whole| - |script|, |script| - |sock.script|;
    assert whole[skipped..][used..] == whole[skipped + used..];
  }

  lemma LeftOfLeft(script: seq<(Answer, bool)>, more: seq<(Answer, bool)>, whole: seq<(Answer, bool)>)
    requires LeftOf(script, more) && LeftOf(more, whole)
    ensures LeftOf(script, whole)
  {
    var skipped, used := |whole| - |more|, |more| - |script|;
    assert whole[skipped..][used..] == whole[skipped + used..];
  }

  const RCV_BUF_SIZE: nat := 128
  const OK_LINE: seq<Byte> := ['o' as int, 'k' as int, LF]

  /** "%010z" of the length, into ten bytes. */
  method MakeHeader(header: array<Byte>, len: nat)
    requires header.Length == HEADER_LEN && len < TWO63
    modifies header
    ensures header[..] == Header(len)
  {
    HeaderFormatted(len);
    var end := Vslprintf(header, 0, HEADER_LEN, HEADER_FORMAT, [Signed(len)]);
    assert header[..] == header[0..HEADER_LEN];
  }

  lemma HeaderFormatted(len: nat)
    requires len < TWO63
    ensures NUL !in HEADER_FORMAT
    ensures Full(HEADER_FORMAT, 0, [Signed(len)]) == Some(Padded(ZERO, HEADER_LEN, Digits(len, Dec)))
  {
    hide Padded, Digits;
    var f, args := HEADER_FORMAT, [Signed(len)];
    assert Width(f, 4, 10) == (10, 4);
    assert Width(f, 3, 1) == (10, 4);
    assert Width(f, 2, 0) == (10, 4);
    assert Width(f, 1, 0) == (10, 4);
    assert Settings(f, 4, Conv(ZERO, 10, true, Dec, UNBOUNDED), args)
        == Some((Conv(ZERO, 10, true, Dec, UNBOUNDED), 4, args));
    var c := Conv(ZERO, 10, true, Dec, UNBOUNDED);
    assert args[1..] == [];
    assert Integer('z' as int, c, args) == Some((false, len));
    assert Piece('z' as int, c, args) == Some((Padded(ZERO, 10, Digits(len, Dec)), []));
    assert Convert(f, 1, args) == Some((Padded(ZERO, 10, Digits(len, Dec)), 5, []));
    OneConversion(f, args, Padded(ZERO, 10, Digits(len, Dec)));
  }

  /** Sends all of the data, unless the socket times out, fails, or is interrupted by a quit. */
  method SendAll(sock: Socket, data: seq<Byte>, signals: Signals) returns (r: Code)
    modifies sock`script, sock`last, sock`sent, signals
    ensures old(sock.sent) <= sock.sent && sock.sent[|old(sock.sent)|..] <= data
    ensures r == OK ==> sock.sent == old(sock.sent) + data
    ensures r == AGAIN ==> sock.last.Again?
    ensures r == ERROR ==> sock.last.Failed? || (sock.last.Interrupted? && signals.quit)
    ensures LeftOf(sock.script, old(sock.script)) && (r != OK ==> Answering(sock, old(sock.script)))
    ensures old(signals.quit) ==> signals.quit
  {
    var total: nat := 0;
    while total < |data|
      invariant total <= |data| && sock.sent == old(sock.sent) + data[..total]
      invariant LeftOf(sock.script, old(sock.script))
      invariant old(signals.quit) ==> signals.quit
      decreases |sock.script|
    {
      ghost var before := sock.sent;
      var ret := sock.Send(data[total..], signals);
      match sock.last
      case Again => return AGAIN;
      case Failed => return ERROR;
      case Interrupted =>
        if signals.quit {
          return ERROR;
        }
      case Moved(_) =>
        assert data[..total] + data[total..][..ret] == data[..total + ret];
        total := total + ret;
    }
    assert data[..total] == data;
    return OK;
  }

  /** Waits for three bytes of the reply and compares them. */
  method RecvReply(sock: Socket, signals: Signals) returns (r: Code)
    modifies sock`script, sock`last, sock`incoming, signals
    ensures r == OK ==> OK_LINE <= old(sock.incoming) && sock.last.Moved?
    ensures Answering(sock, old(sock.script))
    ensures r == AGAIN ==> sock.last.Again?
    ensures r == ERROR ==>
              sock.last.Failed? || (sock.last.Interrupted? && signals.quit)
              || (sock.last.Moved? && |old(sock.incoming)| >= 3 && !(OK_LINE <= old(sock.incoming)))
    ensures old(signals.quit) ==> signals.quit
  {
    var rcv := new Byte[RCV_BUF_SIZE];
    var total: nat := 0;
    while true
      modifies sock`script, sock`last, sock`incoming, signals, rcv
      invariant total < 3 && total <= |old(sock.incoming)|
      invariant sock.incoming == old(sock.incoming)[total..]
      invariant LeftOf(sock.script, old(sock.script))
      invariant old(signals.quit) ==> signals.quit
      invariant forall j :: 0 <= j < total ==> rcv[j] == old(sock.incoming)[j]
      decreases |sock.script|
    {
      var ret := sock.Recv(rcv, total, signals);
      match sock.last
      case Again => return AGAIN;
      case Failed => return ERROR;
      case Interrupted =>
        if signals.quit {
          return ERROR;
        }
      case Moved(_) =>
        total := total + ret;
        if total >= 3 {
          if rcv[0] != 'o' as int || rcv[1] != 'k' as int || rcv[2] != LF {
            return ERROR;
          }
          return OK;
        }
    }
  }

  /** ca_select_send_and_recv: what the socket accepts is at every moment a prefix of the frame,
      and all of it when the exchange succeeds; an interruption alone ends nothing. */
  method SendAndRecv(sock: Socket, body: seq<Byte>, signals: Signals) returns (r: Code)
    requires |body| < TWO63
    modifies sock`script, sock`last, sock`sent, sock`incoming, signals
    ensures old(sock.sent) <= sock.sent && sock.sent[|old(sock.sent)|..] <= Frame(body)
    ensures r == OK ==> sock.sent == old(sock.sent) + Frame(body) && OK_LINE <= old(sock.incoming)
    ensures r == AGAIN ==> sock.last.Again?
    ensures r == ERROR ==> !sock.last.Again?
    ensures r != OK <==> Spoiled(sock, old(sock.incoming), signals.quit)
    ensures sock.last.Moved? ==> sock.sent == old(sock.sent) + Frame(body)
    ensures Answering(sock, old(sock.script))
    ensures old(signals.quit) ==> signals.quit
  {
    hide LeftOf, Answering, Header;
    var header := new Byte[HEADER_LEN];
    MakeHeader(header, |body|);
    ghost var whole := sock.script;
    r := SendAll(sock, header[..], signals);
    if r != OK {
      return;
    }
    ghost var more := sock.script;
    r := SendAll(sock, body, signals);
    LeftOfLeft(sock.script, more, whole);
    if r != OK {
      AnsweringWhole(sock, more, whole);
      return;
    }
    more := sock.script;
    r := RecvReply(sock, signals);
    AnsweringWhole(sock, more, whole);
  }

  // --- the other end -----------------------------------------------------------------------

  function Frames(bodies: seq<seq<Byte>>): seq<Byte> {
    if bodies == [] then [] else Frame(bodies[0]) + Frames(bodies[1..])
  }

  /** Reads ten digits with ca_atosz, then that many bytes, and so on. */
  function Decode(stream: seq<Byte>): Option<seq<seq<Byte>>>
    decreases |stream|
  {
    if stream == [] then Some([])
    else if |stream| < HEADER_LEN then None
    else
      var n := Number(stream[..HEADER_LEN], TWO63);
      if n < 0 || HEADER_LEN + n > |stream| then None
      else
        match Decode(stream[HEADER_LEN + n..])
        case None => None
        case Some(bodies) => Some([stream[HEADER_LEN..HEADER_LEN + n]] + bodies)
  }

  lemma {:induction false} ValueBound(s: seq<Byte>)
    requires AllDigits(s)
    ensures Value(s) < Pow(10, |s|)
    decreases |s|
  {
    if s != [] {
      ValueBound(s[..|s| - 1]);
      assert Pow(10, |s|) == 10 * Pow(10, |s| - 1);
    }
  }

  const HEADER_LIMIT: nat := 10000000000

  /** The header can be read back exactly when the length has at most ten digits. */
  lemma HeaderReadsIff(n: nat)
    requires n < TWO63
    ensures Number(Header(n), TWO63) == n <==> n < HEADER_LIMIT
  {
    var padded := Padded(ZERO, HEADER_LEN, Digits(n, Dec));
    ReadsPadded(n, HEADER_LEN);
    Powers();
    if n < HEADER_LIMIT {
      DigitsBound(n, Dec, HEADER_LEN);
      assert padded[..HEADER_LEN] == padded;
    } else {
      ValueBound(Header(n));
      NumberIsValueIff(Header(n), TWO63);
    }
  }

  predicate Encodable(bodies: seq<seq<Byte>>) {
    forall k :: 0 <= k < |bodies| ==> |bodies[k]| < HEADER_LIMIT
  }

  /** The receiver recovers any sequence of bodies exactly when every length fits in the header. */
  lemma {:induction false} DecodesIff(bodies: seq<seq<Byte>>)
    requires forall k :: 0 <= k < |bodies| ==> |bodies[k]| < TWO63
    ensures Decode(Frames(bodies)) == Some(bodies) <==> Encodable(bodies)
    decreases |bodies|
  {
    if bodies != [] {
      var body, rest := bodies[0], Frames(bodies[1..]);
      var stream := Frame(body) + rest;
      assert stream[..HEADER_LEN] == Header(|body|);
      HeaderReadsIff(|body|);
      DecodesIff(bodies[1..]);
      assert bodies == [body] + bodies[1..];
      if |body| < HEADER_LIMIT {
        assert stream[HEADER_LEN..HEADER_LEN + |body|] == body;
        assert stream[HEADER_LEN + |body|..] == rest;
        assert Encodable(bodies) <==> Encodable(bodies[1..]) by {
          forall k | 0 <= k < |bodies[1..]| ensures |bodies[1..][k]| == |bodies[k + 1]| {
          }
        }
      } else if Decode(stream).Some? {
        assert |Decode(stream).value[0]| != |body|;
      }
    }
  }
}
