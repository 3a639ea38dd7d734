/** Round-robin failover over the servers: ca_select_submit and the loop of ca_acq_submit_cycle in
    src/ca_acquisition.c. */
module Failover {
  import opened Bytes
  import opened Format
  import opened Framing
  import Numbers

  datatype Connecting = Connected | InProgress | ConnectError
  datatype Selected = Ready | Timeout | SelectError

  /** What the system calls of one attempt to connect answer: socket, connect, select, FD_ISSET, getsockopt,
      and the error status that it reports; and then what the session is like. */
  datatype Attempt = Attempt(socket: bool, connect: Connecting, select: Selected, writable: bool,
                             getsockopt: bool, status: int,
                             script: seq<(Answer, bool)>, incoming: seq<Byte>, quit: bool)

  datatype Outcome = Up | TimedOut | Refused

  /** The attempt yields a connection. */
  predicate Succeeds(a: Attempt) {
    a.socket && (a.connect == Connected || (StatusKnown(a) && a.status == 0))
  }

  predicate StatusKnown(a: Attempt) {
    a.connect == InProgress && a.select == Ready && a.writable && a.getsockopt
  }

  /** The attempt fails and its socket stays open: connect fails with another error than EINPROGRESS, or
      the error status is not zero. */
  predicate Leaks(a: Attempt) {
    a.socket && (a.connect == ConnectError || (StatusKnown(a) && a.status != 0))
  }

  function OutcomeOf(a: Attempt): Outcome {
    if Succeeds(a) then Up
    else if a.socket && a.connect == InProgress && a.select == Timeout then TimedOut
    else Refused
  }

  lemma NotBoth(a: Attempt)
    ensures !(Succeeds(a) && Leaks(a)) && (Succeeds(a) || Leaks(a) ==> a.socket)
    ensures OutcomeOf(a) == Up <==> Succeeds(a)
  {
  }

  /** Attempt k of a script; one beyond its end gets no socket. */
  function AttemptAt(attempts: seq<Attempt>, k: nat): Attempt {
    if k < |attempts| then attempts[k]
    else Attempt(false, ConnectError, SelectError, false, false, 0, [], [], false)
  }

  /** How many of the first n attempts leave a socket behind. */
  function LeaksAmong(attempts: seq<Attempt>, n: nat): nat {
    if n == 0 then 0 else LeaksAmong(attempts, n - 1) + if Leaks(AttemptAt(attempts, n - 1)) then 1 else 0
  }

  /** tcp_connect_timeout: the socket that it made, if any, is open afterwards if and only if the attempt
      succeeds, and then it is what is returned, or it Leaks. */
  method Dial(a: Attempt, server: nat) returns (outcome: Outcome, fd: Socket?)
    ensures outcome == OutcomeOf(a)
    ensures fd != null <==> a.socket
    ensures fd != null ==>
              && fresh(fd) && fd.server == server && fd.sent == [] && (fd.open <==> Succeeds(a) || Leaks(a))
              && fd.script == a.script && fd.incoming == a.incoming
  {
    if !a.socket {
      return Refused, null;
    }
    fd := new Socket(server, a.script, a.incoming);
    if a.connect == Connected {
      return Up, fd;
    }
    if a.connect != InProgress {
      return Refused, fd;
    }
    if a.select == SelectError {
      fd.open := false;
      return Refused, fd;
    } else if a.select == Timeout {
      fd.open := false;
      return TimedOut, fd;
    }
    if a.writable {
      if !a.getsockopt {
        fd.open := false;
        return Refused, fd;
      }
      if a.status != 0 {
        return Refused, fd;
      }
    } else {
      fd.open := false;
      return Refused, fd;
    }
    return Up, fd;
  }

  /** What the attempts [first, last) have left behind beside what was left before, and that a quit which
      arrived with them is pending. */
  predicate Counted(attempts: seq<Attempt>, first: nat, last: nat, before: nat, after: nat, quit: bool)
    requires first <= last
  {
    && after == before + LeaksAmong(attempts, last) - LeaksAmong(attempts, first)
    && (forall k :: first <= k < last && k < |attempts| && attempts[k].quit ==> quit)
  }

  lemma CountedOne(attempts: seq<Attempt>, k: nat, before: nat, quit: bool)
    requires AttemptAt(attempts, k).quit ==> quit
    ensures Counted(attempts, k, k + 1, before, before + if Leaks(AttemptAt(attempts, k)) then 1 else 0, quit)
  {
  }

  lemma CountedTogether(attempts: seq<Attempt>, first: nat, k: nat, last: nat, before: nat, between: nat, after: nat,
                        earlier: bool, quit: bool)
    requires first <= k <= last && (earlier ==> quit)
    requires Counted(attempts, first, k, before, between, earlier) && Counted(attempts, k, last, between, after, quit)
    ensures Counted(attempts, first, last, before, after, quit)
  {
  }

  /** Of the sockets made beyond the former ones exactly the one that is kept and those left behind are open. */
  ghost predicate ClosedBut(made: set<Socket>, leaked: set<Socket>, formerly: set<Socket>, left: set<Socket>,
                            kept: Socket?)
    reads made
  {
    && formerly <= made && left <= leaked
    && (forall s :: s in leaked && s !in left ==> s in made && s !in formerly)
    && (forall s :: s in made && s !in formerly ==> (s.open <==> s == kept || s in leaked))
  }

  /** The network decides how each attempt to connect ends. */
  class Network {
    var attempts: seq<Attempt>
    /** How many were made, and how the last one ended. */
    var next: nat
    var outcome: Outcome
    /** The servers that were tried, every socket ever made, and those that were left behind. */
    ghost var visited: seq<nat>
    ghost var made: set<Socket>
    ghost var leaked: set<Socket>

    constructor (attempts: seq<Attempt>)
      ensures this.attempts == attempts && next == 0 && visited == []
      ensures made == {} && leaked == {}
    {
      this.attempts, next, outcome, visited, made, leaked := attempts, 0, TimedOut, [], {}, {};
    }

    /** The next attempt. What is not returned is out of the caller's reach, open or not. */
    method Connect(server: nat, signals: Signals) returns (sock: Socket?)
      modifies this, signals
      ensures visited == old(visited) + [server] && attempts == old(attempts) && next == old(next) + 1
      ensures var a := AttemptAt(attempts, old(next));
              && outcome == OutcomeOf(a) && signals.quit == (old(signals.quit) || a.quit)
              && (sock != null <==> Succeeds(a))
              && Counted(attempts, old(next), next, |old(leaked)|, |leaked|, signals.quit)
      ensures sock != null ==>
                && fresh(sock) && sock in made && sock !in old(made)
                && sock.open && sock.server == server && sock.sent == []
                && var a := AttemptAt(attempts, old(next)); sock.script == a.script && sock.incoming == a.incoming
      ensures ClosedBut(made, leaked, old(made), old(leaked), sock) && MadeFresh(this) && sock !in leaked
    {
      hide Counted, AttemptAt, StatusKnown, Succeeds, Leaks, OutcomeOf, ClosedBut;
      var a := AttemptAt(attempts, next);
      NotBoth(a);
      CountedOne(attempts, next, |leaked|, signals.quit || a.quit);
      visited := visited + [server];
      signals.quit := signals.quit || a.quit;
      next := next + 1;
      var fd;
      outcome, fd := Dial(a, server);
      sock := if outcome == Up then fd else null;
      Record(fd, sock, Leaks(a));
    }

    /** Enters what one attempt has made. */
    ghost method Record(fd: Socket?, kept: Socket?, leaks: bool)
      requires fd != null ==> fd !in made && fd !in leaked && (fd.open <==> fd == kept || leaks)
      requires (kept == null || fd == kept) && (leaks ==> fd != null && fd != kept)
      modifies this`made, this`leaked
      ensures ClosedBut(made, leaked, old(made), old(leaked), kept)
      ensures |leaked| == |old(leaked)| + if leaks then 1 else 0
      ensures forall s :: s in made && s !in old(made) ==> s == fd
      ensures kept != null ==> kept in made && kept !in leaked
    {
      if fd != null {
        made := made + {fd};
        leaked := leaked + if leaks then {fd} else {};
      }
    }
  }

  // --- the order of the visits -------------------------------------------------------------

  /** The server visited in turn j after the given index. */
  function Visit(index: int, count: nat, j: nat): (s: nat)
    requires -1 <= index < count && j < count
    ensures s < count
  {
    if index + 1 + j < count then index + 1 + j else index + 1 + j - count
  }

  function Visits(index: int, count: nat, n: nat): (s: seq<nat>)
    requires n <= count && (n > 0 ==> -1 <= index < count)
    ensures |s| == n
  {
    seq(n, j requires 0 <= j < n => Visit(index, count, j))
  }

  lemma NextServer(index: int, count: nat)
    requires -1 <= index < count && 0 < count
    ensures (index + 1) % count == if index + 1 == count then 0 else index + 1
  {
  }

  /** The servers come in the order index + 1, index + 2, ... modulo the count. */
  lemma VisitIsModular(index: int, count: nat, j: nat)
    requires -1 <= index < count && j < count
    ensures Visit(index, count, j) == (index + 1 + j) % count
  {
    var k := index + 1 + j;
    if k >= count {
      assert k == 1 * count + (k - count);
      Numbers.Remainder(k, 1, k - count, count);
    }
  }

  /** No server is visited twice, and a whole round visits all of them. */
  lemma RoundIsComplete(index: int, count: nat, n: nat)
    requires n <= count && -1 <= index < count
    ensures forall i, j :: 0 <= i < j < n ==> Visits(index, count, n)[i] != Visits(index, count, n)[j]
    ensures n == count ==> forall s :: 0 <= s < count ==> s in Visits(index, count, n)
  {
    if n == count {
      forall s | 0 <= s < count ensures s in Visits(index, count, n) {
        var j := if s > index then s - index - 1 else s - index - 1 + count;
        assert Visits(index, count, n)[j] == s;
      }
    }
  }

  // --- submitting --------------------------------------------------------------------------

  lemma ClosedTogether(made: set<Socket>, leaked: set<Socket>, before: set<Socket>, dropped: set<Socket>,
                       formerly: set<Socket>, left: set<Socket>, kept: Socket?)
    requires ClosedBut(before, dropped, formerly, left, null) && ClosedBut(made, leaked, before, dropped, kept)
    requires kept == null || kept !in before
    ensures ClosedBut(made, leaked, formerly, left, kept) && formerly <= before <= made
  {
  }

  twostate predicate MadeFresh(net: Network)
    reads net
  {
    forall s :: s in net.made && s !in old(net.made) ==> fresh(s)
  }

  /** What became of the connection of one attempt: it is kept, after the answer ok, or it is closed, and then
      the exchange over it was spoiled. */
  ghost predicate Fate(s: Socket?, a: Attempt, server: nat, body: seq<Byte>, kept: Socket?, quit: bool)
    reads s
  {
    && (s != null <==> Succeeds(a))
    && (s != null ==>
          && s.server == server && s.sent <= Frame(body) && Answering(s, a.script)
          && (s == kept ==> s.open && OK_LINE <= a.incoming)
          && (s != kept ==> !s.open && Spoiled(s, a.incoming, quit)))
  }

  ghost predicate Among(socks: seq<Socket?>, made: set<Socket>, formerly: set<Socket>) {
    forall j :: 0 <= j < |socks| && socks[j] != null ==> socks[j] in made && socks[j] !in formerly
  }

  /** This has become of the connections of the attempts from the given one on. */
  ghost predicate Explained(socks: seq<Socket?>, attempts: seq<Attempt>, first: nat, servers: seq<nat>,
                            body: seq<Byte>, kept: Socket?, quit: bool)
    reads socks
  {
    && |servers| == |socks|
    && forall j :: 0 <= j < |socks| ==>
                     Fate(socks[j], AttemptAt(attempts, first + j), servers[j], body, kept, quit)
  }

  lemma ExplainedTogether(socks: seq<Socket?>, attempts: seq<Attempt>, first: nat, servers: seq<nat>, body: seq<Byte>,
                          s: Socket?, server: nat, kept: Socket?, before: bool, quit: bool)
    requires Explained(socks, attempts, first, servers, body, null, before) && (before ==> quit)
    requires Fate(s, AttemptAt(attempts, first + |socks|), server, body, kept, quit)
    requires kept == null || kept !in socks
    ensures Explained(socks + [s], attempts, first, servers + [server], body, kept, quit)
  {
    hide Fate;
    forall j | 0 <= j < |socks|
      ensures Fate(socks[j], AttemptAt(attempts, first + j), servers[j], body, kept, quit)
    {
      StillSo(socks[j], AttemptAt(attempts, first + j), servers[j], body, kept, before, quit);
    }
  }

  lemma StillSo(s: Socket?, a: Attempt, server: nat, body: seq<Byte>, kept: Socket?, before: bool, quit: bool)
    requires Fate(s, a, server, body, null, before) && (before ==> quit) && (kept == null || s != kept)
    ensures Fate(s, a, server, body, kept, quit)
  {
  }

  /** The books on a number of attempts: which connection came of each and what became of it, which sockets
      were made since then, and which of them were left behind. */
  ghost predicate Accounted(socks: seq<Socket?>, attempts: seq<Attempt>, first: nat, servers: seq<nat>,
                            body: seq<Byte>, made: set<Socket>, leaked: set<Socket>, formerly: set<Socket>,
                            left: set<Socket>, kept: Socket?, quit: bool)
    reads socks, made
  {
    && Counted(attempts, first, first + |socks|, |left|, |leaked|, quit)
    && ClosedBut(made, leaked, formerly, left, kept)
    && Explained(socks, attempts, first, servers, body, kept, quit)
    && Among(socks, made, formerly)
  }

  lemma NothingYet(attempts: seq<Attempt>, first: nat, body: seq<Byte>, made: set<Socket>, leaked: set<Socket>,
                   quit: bool)
    ensures Accounted([], attempts, first, [], body, made, leaked, made, leaked, null, quit)
  {
  }

  lemma OneMore(socks: seq<Socket?>, attempts: seq<Attempt>, first: nat, servers: seq<nat>, body: seq<Byte>,
                before: set<Socket>, dropped: set<Socket>, formerly: set<Socket>, left: set<Socket>, earlier: bool,
                s: Socket?, server: nat, made: set<Socket>, leaked: set<Socket>, kept: Socket?, quit: bool)
    requires Accounted(socks, attempts, first, servers, body, before, dropped, formerly, left, null, earlier)
    requires Accounted([s], attempts, first + |socks|, [server], body, made, leaked, before, dropped, kept, quit)
    requires (earlier ==> quit) && (kept == null || kept !in before)
    ensures Accounted(socks + [s], attempts, first, servers + [server], body, made, leaked, formerly, left, kept, quit)
  {
    hide ClosedBut, Explained, Counted, Fate;
    CountedTogether(attempts, first, first + |socks|, first + |socks| + 1, |left|, |dropped|, |leaked|, earlier, quit);
    ClosedTogether(made, leaked, before, dropped, formerly, left, kept);
    TheOne(s, attempts, first + |socks|, server, body, kept, quit);
    ExplainedTogether(socks, attempts, first, servers, body, s, server, kept, earlier, quit);
    forall j | 0 <= j < |socks| + 1 && (socks + [s])[j] != null
      ensures (socks + [s])[j] in made && (socks + [s])[j] !in formerly
    {
      assert j == |socks| ==> s == [s][0];
    }
  }

  lemma TheOne(s: Socket?, attempts: seq<Attempt>, k: nat, server: nat, body: seq<Byte>, kept: Socket?, quit: bool)
    requires Explained([s], attempts, k, [server], body, kept, quit)
    ensures Fate(s, AttemptAt(attempts, k), server, body, kept, quit)
  {
    hide Fate;
    assert [s][0] == s;
  }

  /** One turn of the loop: connect, exchange, and close unless it succeeded. */
  method Try(net: Network, server: nat, body: seq<Byte>, signals: Signals)
    returns (sock: Socket?, stop: bool, ghost s: Socket?)
    requires |body| < TWO63
    modifies net, signals
    ensures net.visited == old(net.visited) + [server] && net.next == old(net.next) + 1
    ensures net.attempts == old(net.attempts) && (old(signals.quit) ==> signals.quit)
    ensures net.outcome == OutcomeOf(AttemptAt(net.attempts, old(net.next)))
    ensures sock != null ==>
              !stop && net.outcome.Up? && fresh(sock) && sock.open && sock.server == server && sock.sent == Frame(body)
    ensures stop <==> net.outcome.Refused? && signals.quit
    ensures stop ==> sock == null
    ensures Accounted([s], net.attempts, old(net.next), [server], body, net.made, net.leaked,
                      old(net.made), old(net.leaked), sock, signals.quit)
    ensures (sock != null ==> s == sock) && MadeFresh(net)
  {
    hide Frame, Answering, Spoiled, AttemptAt, Leaks, Succeeds, LeaksAmong;
    stop := false;
    sock := net.Connect(server, signals);
    s := sock;
    if sock == null {
      stop := net.outcome.Refused? && signals.quit;
    } else {
      var r := SendAndRecv(sock, body, signals);
      if r != OK {
        sock.open := false;
        sock := null;
      } else {
        assert sock.sent == [] + Frame(body);
      }
    }
  }

  /** The loop of ca_select_submit: the servers behind index in turn, each at most once, until an exchange
      succeeds or a connection is refused while a quit is pending. */
  method TryInTurn(net: Network, index: int, count: nat, body: seq<Byte>, signals: Signals)
    returns (sock: Socket?, i: int, stop: bool, ghost tries: nat, ghost socks: seq<Socket?>)
    requires |body| < TWO63 && -1 <= index && (index < count || index == -1)
    modifies net, signals
    ensures |socks| == tries <= count && net.visited == old(net.visited) + Visits(index, count, tries)
    ensures net.next == old(net.next) + tries && net.attempts == old(net.attempts)
    ensures old(signals.quit) ==> signals.quit
    ensures tries > 0 ==> net.outcome == OutcomeOf(AttemptAt(net.attempts, old(net.next) + tries - 1))
    ensures i == if tries > 0 then Visit(index, count, tries - 1) else index
    ensures sock != null ==>
              && !stop && tries > 0 && net.outcome.Up?
              && fresh(sock) && sock.open && sock.server == i && sock.sent == Frame(body)
              && sock == socks[tries - 1]
    ensures stop <==> tries > 0 && net.outcome.Refused? && signals.quit
    ensures sock == null && !stop ==> tries == count
    ensures Accounted(socks, net.attempts, old(net.next), Visits(index, count, tries), body, net.made, net.leaked,
                      old(net.made), old(net.leaked), sock, signals.quit)
    ensures MadeFresh(net)
  {
    hide Accounted, Frame, AttemptAt;
    i, tries, stop, sock, socks := index, 0, false, null, [];
    assert Visits(index, count, 0) == [];
    NothingYet(net.attempts, net.next, body, net.made, net.leaked, signals.quit);
    for n := 0 to count
      invariant tries == n && |socks| == n && sock == null && !stop
      invariant i == if n > 0 then Visit(index, count, n - 1) else index
      invariant net.visited == old(net.visited) + Visits(index, count, n)
      invariant net.next == old(net.next) + n && net.attempts == old(net.attempts)
      invariant old(signals.quit) ==> signals.quit
      invariant n > 0 ==> net.outcome == OutcomeOf(AttemptAt(net.attempts, old(net.next) + n - 1))
      invariant n > 0 ==> !(net.outcome.Refused? && signals.quit)
      invariant Accounted(socks, net.attempts, old(net.next), Visits(index, count, n), body, net.made, net.leaked,
                          old(net.made), old(net.leaked), null, signals.quit)
      invariant MadeFresh(net)
    {
      NextServer(i, count);
      i := (i + 1) % count;
      assert Visits(index, count, n + 1) == Visits(index, count, n) + [i];
      ghost var made, leaked, quit, s := net.made, net.leaked, signals.quit, null;
      sock, stop, s := Try(net, i, body, signals);
      OneMore(socks, net.attempts, old(net.next), Visits(index, count, n), body, made, leaked, old(net.made),
              old(net.leaked), quit, s, i, net.made, net.leaked, sock, signals.quit);
      tries, socks := n + 1, socks + [s];
      if sock != null || stop {
        return;
      }
    }
  }

  predicate EndsWith(s: seq<Byte>, end: seq<Byte>) {
    |end| <= |s| && s[|s| - |end|..] == end
  }

  class Submitter {
    const count: nat
    var fd: Socket?
    var index: int
    /** What was submitted, and with what answer. */
    ghost var log: seq<(seq<Byte>, Code)>

    /** No connection, or an open one to the server at index. */
    ghost predicate Valid()
      reads this, fd
    {
      && -1 <= index && (index < count || index == -1)
      && (fd != null ==> fd.open && 0 <= index < count && fd.server == index)
    }

    constructor (count: nat)
      ensures Valid() && fd == null && index == -1 && log == [] && this.count == count
    {
      this.count, fd, index, log := count, null, -1, [];
    }

    /** The part of ca_select_submit before its loop: the current connection is used, and closed if
        that fails. */
    method Reuse(body: seq<Byte>, signals: Signals) returns (ok: bool)
      requires Valid() && |body| < TWO63 && fd != null
      modifies signals, fd
      ensures fd.open == ok && (ok ==> OK_LINE <= old(fd.incoming))
      ensures ok <==> !Spoiled(fd, old(fd.incoming), signals.quit)
      ensures Answering(fd, old(fd.script))
      ensures old(signals.quit) ==> signals.quit
      ensures ok ==> EndsWith(fd.sent, Frame(body))
    {
      var r := SendAndRecv(fd, body, signals);
      ok := r == OK;
      if ok {
        assert fd.sent[|fd.sent| - |Frame(body)|..] == Frame(body);
      } else {
        fd.open := false;
      }
    }

    /** The rest of ca_select_submit, its loop and what follows it. */
    method Replace(net: Network, body: seq<Byte>, signals: Signals)
      returns (r: Code, ghost tries: nat, ghost quitting: bool, ghost socks: seq<Socket?>)
      requires -1 <= index && (index < count || index == -1) && |body| < TWO63
      modifies this`fd, this`index, net, signals
      ensures |socks| == tries <= count && net.visited == old(net.visited) + Visits(old(index), count, tries)
      ensures net.next == old(net.next) + tries && net.attempts == old(net.attempts)
      ensures old(signals.quit) ==> signals.quit
      ensures tries > 0 ==> net.outcome == OutcomeOf(AttemptAt(net.attempts, old(net.next) + tries - 1))
      ensures r == OK || r == ERROR
      ensures r == OK ==>
                && Valid() && !quitting && fd != null && EndsWith(fd.sent, Frame(body)) && tries > 0
                && net.outcome.Up? && index == Visit(old(index), count, tries - 1)
                && fresh(fd) && fd == socks[tries - 1]
      ensures r == ERROR && !quitting ==>
                && Valid() && fd == null && tries == count
                && index == (if count == 0 then old(index) else Visit(old(index), count, count - 1))
      ensures quitting <==> tries > 0 && net.outcome.Refused? && signals.quit
      ensures quitting ==> r == ERROR && fd == old(fd) && index == old(index)
      ensures Accounted(socks, net.attempts, old(net.next), Visits(old(index), count, tries), body, net.made,
                        net.leaked, old(net.made), old(net.leaked), if r == OK then fd else null, signals.quit)
      ensures MadeFresh(net)
    {
      hide Accounted, Frame, AttemptAt, OutcomeOf, Visits, Spoiled;
      var sock, i, stop;
      quitting := false;
      sock, i, stop, tries, socks := TryInTurn(net, index, count, body, signals);
      if sock != null {
        assert EndsWith(sock.sent, Frame(body));
        fd, index := sock, i;
        return OK, tries, quitting, socks;
      }
      if stop {
        quitting := true;
        return ERROR, tries, quitting, socks;
      }
      index, fd := i, null;
      r := ERROR;
    }

    /** ca_select_submit. The servers after the current one are tried in turn, each once, and all of
        them before the submission fails, unless a connection is refused while a quit is pending. Exactly
        then fd keeps its old value, although that connection has been closed. The sockets that stay open
        are the one that is kept and those that refused attempts have left behind, one each. */
    method Submit(net: Network, body: seq<Byte>, signals: Signals)
      returns (r: Code, ghost tries: nat, ghost quitting: bool, ghost socks: seq<Socket?>)
      requires Valid() && |body| < TWO63
      modifies this, net, signals, if fd == null then {} else {fd}
      ensures |socks| == tries <= count && net.visited == old(net.visited) + Visits(old(index), count, tries)
      ensures net.next == old(net.next) + tries && net.attempts == old(net.attempts)
      ensures old(signals.quit) ==> signals.quit
      ensures tries > 0 ==> net.outcome == OutcomeOf(AttemptAt(net.attempts, old(net.next) + tries - 1))
      ensures (r == OK || r == ERROR) && log == old(log) + [(body, r)]
      ensures r == OK ==>
                && Valid() && !quitting && fd != null
                && EndsWith(fd.sent, Frame(body))
                && (tries == 0 ==> fd == old(fd) && index == old(index) && OK_LINE <= old(fd.incoming))
                && (tries > 0 ==>
                      && net.outcome.Up? && index == Visit(old(index), count, tries - 1)
                      && fresh(fd) && fd == socks[tries - 1])
      ensures r == ERROR && !quitting ==>
                && Valid() && fd == null && tries == count
                && index == (if count == 0 then old(index) else Visit(old(index), count, count - 1))
      ensures quitting <==> tries > 0 && net.outcome.Refused? && signals.quit
      ensures quitting ==> r == ERROR && fd == old(fd) && index == old(index)
      ensures Valid() <==> !(quitting && old(fd) != null)
      ensures old(fd) != null ==> (old(fd).open <==> r == OK && tries == 0)
      ensures old(fd) != null ==>
                && (r == OK && tries == 0 <==> !Spoiled(old(fd), old(fd.incoming), signals.quit))
                && Answering(old(fd), old(fd.script))
      ensures Accounted(socks, net.attempts, old(net.next), Visits(old(index), count, tries), body, net.made,
                        net.leaked, old(net.made), old(net.leaked), if r == OK && tries > 0 then fd else null,
                        signals.quit)
      ensures MadeFresh(net)
    {
      hide Accounted, Answering, Frame, AttemptAt, OutcomeOf, EndsWith;
      tries, quitting, socks := 0, false, [];
      NothingYet(net.attempts, net.next, body, net.made, net.leaked, signals.quit);
      assert Visits(index, count, 0) == [];
      if fd != null {
        var ok := Reuse(body, signals);
        NothingYet(net.attempts, net.next, body, net.made, net.leaked, signals.quit);
        if ok {
          log := log + [(body, OK)];
          return OK, tries, quitting, socks;
        }
      }
      r, tries, quitting, socks := Replace(net, body, signals);
      log := log + [(body, r)];
    }

    /** The loop of ca_acq_submit_cycle over the batches it takes from the queue: every submission
        starts with no connection or with an open one to the current server, and every batch is submitted
        once, in order, whatever became of the one before. */
    method Cycle(net: Network, bodies: seq<seq<Byte>>, signals: Signals) returns (done: nat)
      requires Valid() && fd == null && forall k :: 0 <= k < |bodies| ==> |bodies[k]| < TWO63
      modifies this, net, signals
      ensures done <= |bodies| && (signals.quit || (Valid() && done == |bodies|))
      ensures |log| == |old(log)| + done && old(log) <= log
      ensures forall k :: 0 <= k < done ==> log[|old(log)| + k].0 == bodies[k]
    {
      done := 0;
      while done < |bodies| && !signals.quit
        invariant done <= |bodies| && (signals.quit || Valid())
        invariant fd != null ==> fresh(fd)
        invariant |log| == |old(log)| + done && old(log) <= log
        invariant forall k :: 0 <= k < done ==> log[|old(log)| + k].0 == bodies[k]
      {
        var r, tries, quitting, socks := Submit(net, bodies[done], signals);
        done := done + 1;
      }
    }
  }

  /** An attempt whose connect call fails, with a quit arriving meanwhile or not. */
  function Unreachable(quit: bool): Attempt {
    Attempt(true, ConnectError, SelectError, false, false, 0, [], [], quit)
  }

  /** The failing case: the current connection has failed, the only server refuses, and a quit is pending. */
  method StaleDescriptor(body: seq<Byte>) returns (submitter: Submitter)
    requires |body| < TWO63
    ensures submitter.fd != null && !submitter.fd.open && !submitter.Valid()
  {
    hide Explained, ClosedBut, Among, Frame, Spoiled;
    var signals := new Signals();
    var net := new Network([Unreachable(true)]);
    submitter := new Submitter(1);
    submitter.fd := new Socket(0, [], []);
    submitter.index := 0;
    var r, tries, quitting, socks := submitter.Submit(net, body, signals);
    assert tries == 1 && net.attempts[0].quit;
  }

  /** And a socket left behind: the only server refuses, and nobody closes or holds what was made. */
  method LeakedSocket(body: seq<Byte>) returns (net: Network, submitter: Submitter)
    requires |body| < TWO63
    ensures |net.leaked| == 1 && submitter.fd == null
    ensures forall s :: s in net.leaked ==> s.open && s in net.made
  {
    hide Explained, Among, Frame, Spoiled;
    var signals := new Signals();
    net := new Network([Unreachable(false)]);
    submitter := new Submitter(1);
    var r, tries, quitting, socks := submitter.Submit(net, body, signals);
    assert tries == 1 && LeaksAmong(net.attempts, 0) == 0 && LeaksAmong(net.attempts, 1) == 1;
  }
}
