/** The process table and the master loop of src/clagent.c. Signals arrive only in sigsuspend, and
    the kernel decides which forks succeed, which children have died, and which kills fail. */
module Supervisor {
  import opened Power
  import opened Wrappers

  const MAX_PROCESSES: nat := 1024
  const NORESPAWN: int := -1
  const JUST_SPAWN: int := -2
  const RESPAWN: int := -3
  const JUST_RESPAWN: int := -4
  const DETACHED: int := -5

  datatype Signo = SIGTERM | SIGINT | SIGKILL | SIGQUIT | SIGCHLD | SIGALRM | SIGHUP | SIGUSR1

  // --- the kernel --------------------------------------------------------------------------

  datatype WaitAnswer = Reaped(pid: int, status: int) | Nothing | Interrupted
  datatype KillAnswer = Delivered | NoProcess | Refused

  class Kernel {
    /** The children that wait has not reaped, alive or not. */
    var children: set<int>
    /** Every pid handed out so far; none is handed out twice. */
    var issued: set<int>
    var log: seq<(int, Signo)>
    var forks: seq<int>
    var waits: seq<WaitAnswer>
    var kills: seq<KillAnswer>
    /** The last wait reported that no dead child is left. */
    var idle: bool
    /** How many forks failed. */
    ghost var failed: nat
    /** What the last kill was answered. */
    ghost var answer: KillAnswer

    method Fork() returns (pid: int)
      modifies this`children, this`issued, this`forks, this`failed
      ensures failed == old(failed) + if pid == -1 then 1 else 0
      ensures pid == -1 || (pid > 0 && pid !in old(issued))
      ensures pid == -1 ==> children == old(children) && issued == old(issued)
      ensures pid != -1 ==> children == old(children) + {pid} && issued == old(issued) + {pid}
    {
      if forks == [] || forks[0] <= 0 || forks[0] in issued {
        pid := -1;
        failed := failed + 1;
      } else {
        pid := forks[0];
        children, issued := children + {pid}, issued + {pid};
      }
      if forks != [] {
        forks := forks[1..];
      }
    }

    /** waitpid(-1, &status, WNOHANG) */
    method Wait() returns (a: WaitAnswer)
      modifies this`children, this`waits, this`idle
      ensures idle == a.Nothing?
      ensures a.Reaped? ==> a.pid in old(children) && children == old(children) - {a.pid}
      ensures !a.Reaped? ==> children == old(children)
      ensures old(waits) == [] ==> a.Nothing? && waits == []
      ensures old(waits) != [] ==> waits == old(waits[1..])
    {
      if waits == [] {
        idle := true;
        return Nothing;
      }
      a, waits := waits[0], waits[1..];
      if a.Reaped? {
        if a.pid in children {
          children := children - {a.pid};
        } else {
          a := Nothing;
        }
      }
      idle := a.Nothing?;
    }

    method Kill(pid: int, signo: Signo) returns (a: KillAnswer)
      modifies this`log, this`kills, this`answer
      ensures log == old(log) + [(pid, signo)] && answer == a
      ensures a == NoProcess ==> pid !in children
    {
      log := log + [(pid, signo)];
      a := Delivered;
      if kills != [] {
        a, kills := kills[0], kills[1..];
        if a == NoProcess && pid in children {
          a := Delivered;
        }
      }
      answer := a;
    }
  }

  // --- the process table -------------------------------------------------------------------

  /** program stands for the procedure, its data and its name. */
  datatype Slot = Slot(pid: int, status: int, program: nat, respawn: bool, justSpawn: bool, detached: bool,
                       exiting: bool, exited: bool)

  /** The slots below last are exactly the used ones, their pids differ, and what the table calls
      exited is no longer a child. */
  ghost predicate TableOk(slots: seq<Slot>, last: nat, children: set<int>, issued: set<int>) {
    && |slots| == MAX_PROCESSES && last <= MAX_PROCESSES && children <= issued
    && (forall i :: 0 <= i < last ==> slots[i].pid > 0 && slots[i].pid in issued)
    && (forall i :: last <= i < |slots| ==> slots[i].pid == -1)
    && (forall i, j :: 0 <= i < j < last ==> slots[i].pid != slots[j].pid)
    && (forall i :: 0 <= i < last && slots[i].exited ==> slots[i].pid !in children)
  }

  /** The table knows which of its children are left. */
  ghost predicate Exact(slots: seq<Slot>, last: nat, children: set<int>) {
    forall i :: 0 <= i < last && i < |slots| ==> (slots[i].exited <==> slots[i].pid !in children)
  }

  predicate AllExited(slots: seq<Slot>, last: nat) {
    forall i :: 0 <= i < last && i < |slots| ==> slots[i].exited
  }

  /** Whether ca_reap_children tries to start the slot's program again. */
  predicate WantsRespawn(s: Slot, quit: bool) {
    s.exited && s.respawn && !s.exiting && !quit
  }

  predicate Skipped(s: Slot, signo: Signo) {
    s.detached || s.pid == -1 || s.exited || (s.exiting && (signo == SIGTERM || signo == SIGINT))
  }

  /** The kills that a round of signalling attempts. */
  function Targets(slots: seq<Slot>, n: nat, signo: Signo): seq<(int, Signo)>
    requires n <= |slots|
  {
    if n == 0 then []
    else if Skipped(slots[n - 1], signo) then Targets(slots, n - 1, signo)
    else Targets(slots, n - 1, signo) + [(slots[n - 1].pid, signo)]
  }

  /** Over the fields of the slots: who is sent a signal in a round of signalling, and how often. A child that is
      neither detached nor gone is sent it once; only SIGTERM and SIGINT are kept from one that was told
      to go before. Nobody else is sent anything. */
  ghost predicate SentOnce(slots: seq<Slot>, last: nat, signo: Signo, kills: seq<(int, Signo)>) {
    && last <= |slots|
    && (forall i :: 0 <= i < last ==>
          multiset(kills)[(slots[i].pid, signo)]
          == if slots[i].detached || slots[i].exited then 0
             else if signo == SIGTERM || signo == SIGINT then (if slots[i].exiting then 0 else 1)
             else 1)
    && (forall k :: 0 <= k < |kills| ==> kills[k].1 == signo && IsListed(slots, last, kills[k].0))
  }

  lemma NoTargets(slots: seq<Slot>, signo: Signo)
    ensures Targets(slots, 0, signo) == []
  {
  }

  lemma TargetsStep(slots: seq<Slot>, i: nat, signo: Signo, children: set<int>)
    requires i < |slots|
    ensures Targets(slots, i + 1, signo)
         == Targets(slots, i, signo) + if Skipped(slots[i], signo) then [] else [(slots[i].pid, signo)]
    ensures Skipped(slots[i], signo) ==> Signalled(slots[i], slots[i], signo, children)
  {
  }

  ghost predicate IsListed(slots: seq<Slot>, n: nat, pid: int) {
    exists i :: 0 <= i < n && i < |slots| && slots[i].pid == pid
  }

  lemma {:induction false} TargetsListed(slots: seq<Slot>, n: nat, signo: Signo)
    requires n <= |slots|
    ensures forall k :: 0 <= k < |Targets(slots, n, signo)| ==>
              var x := Targets(slots, n, signo)[k]; x.1 == signo && IsListed(slots, n, x.0)
  {
    if n > 0 {
      TargetsListed(slots, n - 1, signo);
      var ts := Targets(slots, n - 1, signo);
      forall k | 0 <= k < |Targets(slots, n, signo)|
        ensures var x := Targets(slots, n, signo)[k]; x.1 == signo && IsListed(slots, n, x.0)
      {
        if k < |ts| {
          assert ts[k].1 == signo && IsListed(slots, n - 1, ts[k].0);
        } else {
          assert slots[n - 1].pid == Targets(slots, n, signo)[k].0;
        }
      }
    }
  }

  lemma {:induction false} TargetsOnce(slots: seq<Slot>, n: nat, signo: Signo, i: nat)
    requires i < n <= |slots| && slots[i].pid != -1
    requires forall a, b :: 0 <= a < b < n ==> slots[a].pid != slots[b].pid
    ensures multiset(Targets(slots, n, signo))[(slots[i].pid, signo)]
         == if slots[i].detached || slots[i].exited then 0
            else if signo == SIGTERM || signo == SIGINT then (if slots[i].exiting then 0 else 1)
            else 1
  {
    var x, ts := (slots[i].pid, signo), Targets(slots, n - 1, signo);
    if i == n - 1 {
      TargetsListed(slots, n - 1, signo);
      forall k | 0 <= k < |ts| ensures ts[k] != x {
        assert IsListed(slots, n - 1, ts[k].0);
      }
      assert x !in multiset(ts);
    } else {
      TargetsOnce(slots, n - 1, signo, i);
      assert slots[n - 1].pid != slots[i].pid;
    }
  }

  /** The kills of a round reach exactly who is to be reached. */
  lemma TargetsSent(slots: seq<Slot>, last: nat, children: set<int>, issued: set<int>, signo: Signo)
    requires TableOk(slots, last, children, issued)
    ensures SentOnce(slots, last, signo, Targets(slots, last, signo))
  {
    forall i | 0 <= i < last
      ensures multiset(Targets(slots, last, signo))[(slots[i].pid, signo)]
           == if slots[i].detached || slots[i].exited then 0
              else if signo == SIGTERM || signo == SIGINT then (if slots[i].exiting then 0 else 1)
              else 1
    {
      TargetsOnce(slots, last, signo, i);
    }
    TargetsListed(slots, last, signo);
  }

  /** What a kill does to the slot of its process. */
  predicate Signalled(was: Slot, now: Slot, signo: Signo, children: set<int>) {
    if Skipped(was, signo) then now == was
    else
      || now == was.(exiting := true)
      || now == was
      || (now == was.(exited := true, exiting := false) && was.pid !in children)
  }

  /** What waiting does to a slot. */
  predicate Collected(was: Slot, now: Slot) {
    now == was || now == was.(exited := true, status := now.status)
  }

  /** What reaping does to a slot. */
  predicate Respawned(was: Slot, now: Slot, quit: bool) {
    if WantsRespawn(was, quit) then now == was || now == was.(pid := now.pid, exited := false)
    else now == was
  }

  /** A slot has a new child only if its old one has exited, is of a kind to be started again, and was not told to
      go, and no quit is pending; and if no fork failed, exactly then. */
  ghost predicate Restarts(was: seq<Slot>, now: seq<Slot>, last: nat, quit: bool, allForked: bool) {
    forall i :: 0 <= i < last && i < |was| && i < |now| ==>
      && (now[i].pid != was[i].pid ==> was[i].exited && was[i].respawn && !was[i].exiting && !quit)
      && (allForked && was[i].exited && was[i].respawn && !was[i].exiting && !quit ==> now[i].pid != was[i].pid)
  }

  /** A child just started, of the kind that was asked for. */
  predicate Started(s: Slot, program: nat, kind: int) {
    && s.program == program && !s.exited && !s.exiting && s.pid > 0
    && s.respawn == (kind == RESPAWN || kind == JUST_RESPAWN) && s.detached == (kind == DETACHED)
    && s.justSpawn == (kind == JUST_SPAWN || kind == JUST_RESPAWN)
  }

  lemma TableUpdate(slots: seq<Slot>, last: nat, children: set<int>, issued: set<int>, i: nat, s: Slot)
    requires TableOk(slots, last, children, issued) && i < last
    requires s.pid == slots[i].pid && (s.exited ==> s.pid !in children)
    ensures TableOk(slots[i := s], last, children, issued)
  {
  }

  lemma TableSpawn(slots: seq<Slot>, last: nat, children: set<int>, issued: set<int>, i: nat, s: Slot)
    requires TableOk(slots, last, children, issued) && i <= last && i < MAX_PROCESSES
    requires s.pid > 0 && s.pid !in issued && !s.exited
    ensures TableOk(slots[i := s], if i == last then last + 1 else last, children + {s.pid}, issued + {s.pid})
    ensures Exact(slots, last, children) ==>
              Exact(slots[i := s], if i == last then last + 1 else last, children + {s.pid})
  {
  }

  lemma TableReaped(slots: seq<Slot>, last: nat, children: set<int>, issued: set<int>, pid: int)
    requires TableOk(slots, last, children, issued)
    ensures TableOk(slots, last, children - {pid}, issued)
  {
  }

  // --- the signals sent, in terms of the signals delivered ---------------------------------------

  /** The children looked at in one turn, the signal that they were sent, if any, and which processes were
      there then. */
  datatype Round = Round(asked: seq<Slot>, signo: Option<Signo>, children: set<int>)

  /** Everybody was sent what he was to be sent; and with SIGKILL or SIGQUIT that is, once each, every process
      on the table that was there and not detached. */
  ghost predicate Reached(r: Round, last: nat) {
    r.signo.Some? ==>
      && SentOnce(r.asked, last, r.signo.value, Kills(r, last))
      && (r.signo.value == SIGKILL || r.signo.value == SIGQUIT ==>
            forall i :: 0 <= i < last && !r.asked[i].detached && r.asked[i].pid in r.children ==>
                          multiset(Kills(r, last))[(r.asked[i].pid, r.signo.value)] == 1)
  }

  lemma RoundReaches(r: Round, last: nat, issued: set<int>)
    requires r.signo.Some? && TableOk(r.asked, last, r.children, issued)
    ensures Reached(r, last)
  {
    TargetsSent(r.asked, last, r.children, issued, r.signo.value);
    assert Kills(r, last) == Targets(r.asked, last, r.signo.value);
    hide Targets, Kills;
  }

  function Kills(r: Round, last: nat): seq<(int, Signo)> {
    if r.signo.Some? && last <= |r.asked| then Targets(r.asked, last, r.signo.value) else []
  }

  function AllKills(rounds: seq<Round>, last: nat): seq<(int, Signo)> {
    if rounds == [] then [] else AllKills(rounds[..|rounds| - 1], last) + Kills(rounds[|rounds| - 1], last)
  }

  predicate Asks(pending: seq<Signo>) {
    SIGINT in pending || SIGTERM in pending
  }

  /** The first turn, from k on, that is asked to terminate. */
  function FirstAsked(ds: seq<seq<Signo>>, k: nat): (f: nat)
    requires k <= |ds|
    ensures k <= f <= |ds| && (f < |ds| ==> Asks(ds[f]))
    ensures forall j :: k <= j < f ==> !Asks(ds[j])
    decreases |ds| - k
  {
    if k == |ds| || Asks(ds[k]) then k else FirstAsked(ds, k + 1)
  }

  /** In how many of the turns from a up to b an alarm is delivered. */
  function Alarms(ds: seq<seq<Signo>>, a: nat, b: nat): nat
    requires a <= b <= |ds|
  {
    if a == b then 0 else Alarms(ds, a, b - 1) + if SIGALRM in ds[b - 1] then 1 else 0
  }

  /** How often the delay has doubled in the turns up to k, the first asked to terminate being f: once for
      all alarms up to that turn, and once for every later turn with an alarm, each a turn later. */
  function Doubled(ds: seq<seq<Signo>>, f: nat, k: nat): nat
    requires f < k <= |ds|
  {
    if k == f + 1 then 0
    else (if Alarms(ds, 0, f + 1) > 0 then 1 else 0) + Alarms(ds, f + 1, k - 1)
  }

  /** Whether an alarm waits to be counted after k turns. */
  predicate Unspent(ds: seq<seq<Signo>>, f: nat, k: nat)
    requires f <= |ds| && k <= |ds|
  {
    if k <= f + 1 then Alarms(ds, 0, k) > 0 else SIGALRM in ds[k - 1]
  }

  /** Whether the signal is delivered in one of the first k turns. */
  predicate Arrived(ds: seq<seq<Signo>>, k: nat, signo: Signo)
    requires k <= |ds|
  {
    exists j :: 0 <= j < k && signo in ds[j]
  }

  /** The signal of turn k, unless the loop is left in it: SIGKILL once the delay has doubled five times. */
  function SignalOf(ds: seq<seq<Signo>>, k: nat): Option<Signo>
    requires k < |ds|
  {
    var f := FirstAsked(ds, 0);
    if f <= k then Some(if Doubled(ds, f, k + 1) >= 5 then SIGKILL else SIGTERM)
    else if Arrived(ds, k + 1, SIGQUIT) then Some(SIGQUIT) else None
  }

  /** Turn k moves the count as Tick and the setting of the delay do. */
  lemma DoubledStep(ds: seq<seq<Signo>>, f: nat, k: nat)
    requires f <= k < |ds|
    ensures Doubled(ds, f, k + 1) == if f == k then 0 else Doubled(ds, f, k) + if Unspent(ds, f, k) then 1 else 0
  {
    if k == f + 1 {
      assert Alarms(ds, f + 1, k) == 0;
    }
  }

  lemma UnspentStep(ds: seq<seq<Signo>>, f: nat, k: nat)
    requires f <= |ds| && k < |ds|
    ensures Unspent(ds, f, k + 1) <==> (Unspent(ds, f, k) && k <= f) || SIGALRM in ds[k]
  {
  }

  lemma ArrivedStep(ds: seq<seq<Signo>>, k: nat, signo: Signo)
    requires k < |ds|
    ensures Arrived(ds, k + 1, signo) <==> Arrived(ds, k, signo) || signo in ds[k]
  {
    if signo in ds[k] {
      assert k < k + 1;
    }
  }

  lemma ArrivedBy(ds: seq<seq<Signo>>, k: nat, signo: Signo)
    requires k <= |ds| && Arrived(ds, k, signo)
    ensures Arrived(ds, |ds|, signo)
  {
  }

  /** Once SIGKILL is sent it is what is sent from then on. */
  lemma KillStays(ds: seq<seq<Signo>>, k: nat)
    requires k + 1 < |ds| && SignalOf(ds, k) == Some(SIGKILL)
    ensures SignalOf(ds, k + 1) == Some(SIGKILL)
  {
    DoubledStep(ds, FirstAsked(ds, 0), k + 1);
  }

  /** Five alarms, each in a turn of its own from the first asked to terminate on, bring it about; four do
      not. */
  lemma FirstKill(ds: seq<seq<Signo>>, k: nat)
    requires k < |ds|
    ensures var f := FirstAsked(ds, 0);
            && (f < k && Alarms(ds, f, k) >= 5 ==> SignalOf(ds, k) == Some(SIGKILL))
            && (SignalOf(ds, k) == Some(SIGKILL) ==> f < k && Alarms(ds, f + 1, k) >= 4)
  {
    var f := FirstAsked(ds, 0);
    if f < k {
      AlarmsSplit(ds, f, k);
      if SIGALRM in ds[f] {
        assert Alarms(ds, 0, f + 1) == Alarms(ds, 0, f) + 1;
      }
    }
  }

  lemma {:induction false} AlarmsSplit(ds: seq<seq<Signo>>, f: nat, k: nat)
    requires f < k <= |ds|
    ensures Alarms(ds, f, k) == (if SIGALRM in ds[f] then 1 else 0) + Alarms(ds, f + 1, k)
    decreases k
  {
    if k > f + 1 {
      AlarmsSplit(ds, f, k - 1);
    } else {
      assert Alarms(ds, f, f) == 0 && Alarms(ds, f + 1, f + 1) == 0;
    }
  }

  class Master {
    const kernel: Kernel
    const processes: array<Slot>
    var last: nat
    var reap: bool
    var quit: bool
    var terminate: bool
    var sigalrm: bool
    var live: bool
    var delay: nat
    /** How many children were started while a quit was pending. */
    ghost var late: nat
    /** How often the delay was doubled. */
    ghost var doublings: nat

    ghost predicate Table()
      reads this, kernel, processes
    {
      TableOk(processes[..], last, kernel.children, kernel.issued)
    }

    ghost predicate Valid()
      reads this, kernel, processes
    {
      && Table()
      && (!live ==> AllExited(processes[..], last))
      && (delay != 0 ==> delay == 50 * Pow(2, doublings))
    }

    /** ca_init_processes */
    constructor (kernel: Kernel)
      requires kernel.children <= kernel.issued
      ensures Valid() && last == 0 && this.kernel == kernel && fresh(processes)
      ensures Exact(processes[..], last, kernel.children)
      ensures live && !quit && !terminate && !reap && delay == 0 && !sigalrm && late == 0
    {
      this.kernel := kernel;
      processes := new Slot[MAX_PROCESSES](_ => Slot(-1, 0, 0, false, false, false, false, false));
      last, reap, quit, terminate, sigalrm, live, delay, late, doublings :=
        0, false, false, false, false, true, 0, 0, 0;
    }

    /** The first unused slot, or last. */
    method FindSlot() returns (s: nat)
      requires Table()
      ensures s == last
    {
      s := 0;
      while s < last
        invariant s <= last
      {
        if processes[s].pid == -1 {
          return;
        }
        s := s + 1;
      }
    }

    /** ca_spawn_process: a child in a new slot, or in the given slot again. */
    method Spawn(program: nat, respawn: int) returns (pid: int)
      requires Table() && respawn < last && (respawn >= 0 ==> processes[respawn].exited)
      modifies this`last, this`late, processes, kernel`children, kernel`issued, kernel`forks, kernel`failed
      ensures Table() && (old(Exact(processes[..], last, kernel.children)) ==>
                            Exact(processes[..], last, kernel.children))
      ensures kernel.failed >= old(kernel.failed)
      ensures respawn >= 0 || old(last) < MAX_PROCESSES ==>
                kernel.failed == old(kernel.failed) + if pid == -1 then 1 else 0
      ensures pid == -1 ==>
                processes[..] == old(processes[..]) && last == old(last)
                && kernel.children == old(kernel.children) && late == old(late)
      ensures pid != -1 ==>
                var s := if respawn >= 0 then respawn else old(last);
                && pid > 0 && pid !in old(kernel.issued) && kernel.children == old(kernel.children) + {pid}
                && last == (if respawn >= 0 then old(last) else old(last) + 1)
                && late == (if quit then old(late) + 1 else old(late))
                && processes[..] == old(processes[..])[s := processes[s]]
                && processes[s].pid == pid && !processes[s].exited
                && (respawn >= 0 ==> processes[s] == old(processes[s]).(pid := pid, exited := false))
                && (respawn < 0 ==>
                      && processes[s].program == program && !processes[s].exiting
                      && (DETACHED <= respawn ==>
                            && processes[s].respawn == (respawn == RESPAWN || respawn == JUST_RESPAWN)
                            && processes[s].justSpawn == (respawn == JUST_SPAWN || respawn == JUST_RESPAWN)
                            && processes[s].detached == (respawn == DETACHED)))
    {
      hide TableOk, Exact;
      var s;
      TableBound(processes[..], last, kernel.children, kernel.issued);
      if respawn >= 0 {
        s := respawn;
      } else {
        s := FindSlot();
        if s == MAX_PROCESSES {
          return -1;
        }
      }
      pid := kernel.Fork();
      if pid == -1 {
        return;
      }
      var slot := processes[s].(pid := pid, exited := false);
      if respawn < 0 {
        slot := slot.(program := program, exiting := false);
        if respawn == NORESPAWN {
          slot := slot.(respawn := false, justSpawn := false, detached := false);
        } else if respawn == JUST_SPAWN {
          slot := slot.(respawn := false, justSpawn := true, detached := false);
        } else if respawn == RESPAWN {
          slot := slot.(respawn := true, justSpawn := false, detached := false);
        } else if respawn == JUST_RESPAWN {
          slot := slot.(respawn := true, justSpawn := true, detached := false);
        } else if respawn == DETACHED {
          slot := slot.(respawn := false, justSpawn := false, detached := true);
        }
      }
      TableSpawn(processes[..], last, old(kernel.children), old(kernel.issued), s, slot);
      assert processes[..][s := slot] == old(processes[..])[s := slot];
      processes[s] := slot;
      if s == last {
        last := last + 1;
      }
      if quit {
        late := late + 1;
      }
      assert processes[..] == old(processes[..])[s := slot];
    }

    /** One slot in ca_reap_children. */
    method ReapOne(i: nat) returns (lives: bool)
      requires Table() && i < last
      modifies this`last, this`late, processes, kernel`children, kernel`issued, kernel`forks, kernel`failed
      ensures Table() && last == old(last) && late == old(late)
      ensures old(Exact(processes[..], last, kernel.children)) ==> Exact(processes[..], last, kernel.children)
      ensures processes[..] == old(processes[..])[i := processes[i]] && lives == !processes[i].exited
      ensures Respawned(old(processes[i]), processes[i], quit)
      ensures kernel.failed >= old(kernel.failed)
      ensures processes[i].pid != old(processes[i]).pid ==> WantsRespawn(old(processes[i]), quit)
      ensures kernel.failed == old(kernel.failed) && WantsRespawn(old(processes[i]), quit) ==>
                processes[i].pid != old(processes[i]).pid
      ensures quit ==> processes[..] == old(processes[..]) && kernel.children == old(kernel.children)
    {
      hide TableOk, Exact, AllExited;
      TableBound(processes[..], last, kernel.children, kernel.issued);
      TableUsed(processes[..], last, kernel.children, kernel.issued, i);
      lives := false;
      if processes[i].pid == -1 {
      } else if processes[i].exited {
        if processes[i].respawn && !processes[i].exiting && !quit {
          var pid := Spawn(processes[i].program, i);
          lives := pid != -1;
        }
      } else {
        lives := true;
      }
    }

    /** ca_reap_children: live tells whether some child is left; what is started again are the children that
        have exited, want it and were not told to go, and nothing once a quit is pending. */
    method ReapChildren() returns (someLive: bool)
      requires Table()
      modifies this`last, this`late, processes, kernel`children, kernel`issued, kernel`forks, kernel`failed
      ensures Table() && last == old(last)
      ensures old(Exact(processes[..], last, kernel.children)) ==> Exact(processes[..], last, kernel.children)
      ensures someLive <==> !AllExited(processes[..], last)
      ensures forall i :: 0 <= i < last ==> Respawned(old(processes[i]), processes[i], quit)
      ensures kernel.failed >= old(kernel.failed)
      ensures Restarts(old(processes[..]), processes[..], last, quit, kernel.failed == old(kernel.failed))
      ensures late == old(late)
      ensures quit ==> processes[..] == old(processes[..]) && kernel.children == old(kernel.children)
    {
      someLive := false;
      TableBound(processes[..], last, kernel.children, kernel.issued);
      RestartsNone(processes[..], quit);
      for i := 0 to last
        invariant Table() && last == old(last) && late == old(late)
        invariant old(Exact(processes[..], last, kernel.children)) ==> Exact(processes[..], last, kernel.children)
        invariant someLive <==> !AllExited(processes[..], i)
        invariant forall k :: 0 <= k < i ==> Respawned(old(processes[k]), processes[k], quit)
        invariant forall k :: i <= k < last ==> processes[k] == old(processes[k])
        invariant kernel.failed >= old(kernel.failed)
        invariant Restarts(old(processes[..]), processes[..], i, quit, kernel.failed == old(kernel.failed))
        invariant quit ==> processes[..] == old(processes[..]) && kernel.children == old(kernel.children)
      {
        hide TableOk, Exact, AllExited, Restarts, Respawned, WantsRespawn;
        ghost var before, ok := processes[..], kernel.failed == old(kernel.failed);
        var lives := ReapOne(i);
        someLive := someLive || lives;
        AllExitedSame(before, processes[..], i);
        AllExitedStep(processes[..], i);
        RestartsStep(old(processes[..]), before, processes[..], i, quit, ok, kernel.failed == old(kernel.failed));
      }
    }

    /** ca_process_get_status: every child that wait reports is marked in the table. */
    method GetStatus()
      requires Table()
      modifies processes, kernel`children, kernel`waits, kernel`idle
      ensures Table() && kernel.children <= old(kernel.children) && kernel.idle
      ensures old(AllExited(processes[..], last)) ==> AllExited(processes[..], last)
      ensures old(Exact(processes[..], last, kernel.children)) ==> Exact(processes[..], last, kernel.children)
      ensures forall i :: 0 <= i < last ==>
                Collected(old(processes[i]), processes[i])
    {
      while true
        modifies processes, kernel`children, kernel`waits, kernel`idle
        invariant Table() && kernel.children <= old(kernel.children)
        invariant old(AllExited(processes[..], last)) ==> AllExited(processes[..], last)
        invariant old(Exact(processes[..], last, kernel.children)) ==> Exact(processes[..], last, kernel.children)
        invariant forall i :: 0 <= i < last ==>
                    Collected(old(processes[i]), processes[i])
        decreases |kernel.waits|
      {
        hide TableOk, AllExited, Exact;
        var a := kernel.Wait();
        if a.Nothing? {
          return;
        }
        if a.Reaped? {
          MarkExited(a.pid, a.status);
        }
      }
    }

    /** The inner loop of ca_process_get_status. */
    method MarkExited(pid: int, status: int)
      requires TableOk(processes[..], last, kernel.children + {pid}, kernel.issued) && pid !in kernel.children
      modifies processes
      ensures Table()
      ensures old(Exact(processes[..], last, kernel.children + {pid})) ==>
                Exact(processes[..], last, kernel.children)
      ensures forall i :: 0 <= i < last ==>
                processes[i] == if old(processes[i]).pid == pid
                                then old(processes[i]).(exited := true, status := status)
                                else old(processes[i])
    {
      TableReaped(processes[..], last, kernel.children + {pid}, kernel.issued, pid);
      assert kernel.children + {pid} - {pid} == kernel.children;
      for i := 0 to last
        invariant processes[..] == old(processes[..])
        invariant forall k :: 0 <= k < i ==> processes[k].pid != pid
      {
        if processes[i].pid == pid {
          TableUpdate(processes[..], last, kernel.children, kernel.issued, i,
                      processes[i].(status := status, exited := true));
          assert processes[..][i := processes[i].(status := status, exited := true)]
              == old(processes[..])[i := processes[i].(status := status, exited := true)];
          processes[i] := processes[i].(status := status, exited := true);
          assert processes[..] == old(processes[..])[i := processes[i]];
          return;
        }
      }
    }

    /** ca_signal_child_processes: exactly the children not skipped are signalled, in order. */
    method SignalChildren(signo: Signo)
      requires Table()
      modifies this`reap, processes, kernel`log, kernel`kills, kernel`answer
      ensures Table() && kernel.log == old(kernel.log) + Targets(old(processes[..]), last, signo)
      ensures SentOnce(old(processes[..]), last, signo, Targets(old(processes[..]), last, signo))
      ensures forall i :: 0 <= i < last ==>
                Signalled(old(processes[i]), processes[i], signo, kernel.children)
      ensures old(AllExited(processes[..], last)) ==> AllExited(processes[..], last)
      ensures old(Exact(processes[..], last, kernel.children)) ==>
                Exact(processes[..], last, kernel.children) && reap == old(reap)
                && (AllExited(processes[..], last) ==> old(AllExited(processes[..], last)))
    {
      hide TableOk, Exact, AllExited, SentOnce, Targets, Signalled;
      TableBound(processes[..], last, kernel.children, kernel.issued);
      NoTargets(processes[..], signo);
      TargetsSent(processes[..], last, kernel.children, kernel.issued, signo);
      for i := 0 to last
        invariant Table() && kernel.log == old(kernel.log) + Targets(old(processes[..]), i, signo)
        invariant forall k :: 0 <= k < i ==> Signalled(old(processes[k]), processes[k], signo, kernel.children)
        invariant forall k :: i <= k < MAX_PROCESSES ==> processes[k] == old(processes[k])
        invariant old(Exact(processes[..], last, kernel.children)) ==>
                    Exact(processes[..], last, kernel.children) && reap == old(reap)
                    && (AllExited(processes[..], i) ==> old(AllExited(processes[..], i)))
      {
        AllExitedStep(old(processes[..]), i);
        TargetsStep(old(processes[..]), i, signo, kernel.children);
        if processes[i].detached || processes[i].pid == -1 {
        } else if processes[i].exited {
        } else if processes[i].exiting && (signo == SIGTERM || signo == SIGINT) {
        } else {
          SignalOne(i, signo);
        }
        AllExitedStep(processes[..], i);
      }
      SignalKeepsExited(old(processes[..]), processes[..], last, signo, kernel.children);
    }

    method SignalOne(i: nat, signo: Signo)
      requires Table() && i < last && !Skipped(processes[i], signo)
      modifies this`reap, processes, kernel`log, kernel`kills, kernel`answer
      ensures Table() && kernel.log == old(kernel.log) + [(old(processes[i]).pid, signo)]
      ensures processes[..] == old(processes[..])[i := processes[i]]
      ensures processes[i] == match kernel.answer
                              case Delivered => old(processes[i]).(exiting := true)
                              case NoProcess => old(processes[i]).(exited := true, exiting := false)
                              case Refused => old(processes[i])
      ensures reap == (old(reap) || kernel.answer == NoProcess)
      ensures Signalled(old(processes[i]), processes[i], signo, kernel.children)
      ensures old(Exact(processes[..], last, kernel.children)) ==>
                Exact(processes[..], last, kernel.children) && reap == old(reap) && !processes[i].exited
    {
      var slot := processes[i];
      var a := kernel.Kill(slot.pid, signo);
      if a == Delivered {
        slot := slot.(exiting := true);
      } else if a == NoProcess {
        slot := slot.(exited := true, exiting := false);
        reap := true;
      }
      TableUpdate(processes[..], last, kernel.children, kernel.issued, i, slot);
      processes[i] := slot;
      assert processes[..] == old(processes[..])[i := slot];
    }

    /** ca_signal_handler in the master. As long as no death of a child has been announced the table
        stays as it is; once it has been, every handler collects all dead children. */
    method Handle(signo: Signo)
      requires Valid()
      modifies this`reap, this`quit, this`terminate, this`sigalrm
      modifies processes, kernel`children, kernel`waits, kernel`idle
      ensures Valid() && reap == (old(reap) || signo == SIGCHLD)
      ensures quit == (old(quit) || signo == SIGQUIT)
      ensures terminate == (old(terminate) || signo == SIGINT || signo == SIGTERM)
      ensures sigalrm == (old(sigalrm) || signo == SIGALRM)
      ensures forall i :: 0 <= i < last ==> Collected(old(processes[i]), processes[i])
      ensures if reap then kernel.idle else
                processes[..] == old(processes[..]) && kernel.children == old(kernel.children)
      ensures old(Exact(processes[..], last, kernel.children)) ==> Exact(processes[..], last, kernel.children)
    {
      hide TableOk, AllExited, Exact, Pow;
      match signo {
        case SIGALRM => sigalrm := true;
        case SIGINT => terminate := true;
        case SIGTERM => terminate := true;
        case SIGQUIT => quit := true;
        case SIGCHLD => reap := true;
        case _ =>
      }
      if reap {
        GetStatus();
      }
    }

    /** sigsuspend: the handlers of all pending signals run. */
    method Suspend(pending: seq<Signo>)
      requires Valid()
      modifies this`reap, this`quit, this`terminate, this`sigalrm
      modifies processes, kernel`children, kernel`waits, kernel`idle
      ensures Valid() && reap == (old(reap) || SIGCHLD in pending)
      ensures quit == (old(quit) || SIGQUIT in pending)
      ensures terminate == (old(terminate) || SIGINT in pending || SIGTERM in pending)
      ensures sigalrm == (old(sigalrm) || SIGALRM in pending)
      ensures forall i :: 0 <= i < last ==> Collected(old(processes[i]), processes[i])
      ensures !reap ==> processes[..] == old(processes[..]) && kernel.children == old(kernel.children)
      ensures reap && pending != [] ==> kernel.idle
      ensures old(Exact(processes[..], last, kernel.children)) ==> Exact(processes[..], last, kernel.children)
    {
      for k := 0 to |pending|
        invariant Valid() && reap == (old(reap) || SIGCHLD in pending[..k])
        invariant quit == (old(quit) || SIGQUIT in pending[..k])
        invariant terminate == (old(terminate) || SIGINT in pending[..k] || SIGTERM in pending[..k])
        invariant sigalrm == (old(sigalrm) || SIGALRM in pending[..k])
        invariant forall i :: 0 <= i < last ==> Collected(old(processes[i]), processes[i])
        invariant !reap ==> processes[..] == old(processes[..]) && kernel.children == old(kernel.children)
        invariant reap && k > 0 ==> kernel.idle
        invariant old(Exact(processes[..], last, kernel.children)) ==> Exact(processes[..], last, kernel.children)
      {
        hide TableOk, AllExited, Exact;
        assert pending[..k + 1] == pending[..k] + [pending[k]];
        Handle(pending[k]);
      }
      assert pending[..|pending|] == pending;
    }

    /** The delay doubles with every alarm, once it runs. */
    method Tick()
      requires Valid()
      modifies this`delay, this`sigalrm, this`doublings
      ensures Valid() && (delay == 0 <==> old(delay) == 0)
      ensures doublings == old(doublings) + if old(delay) != 0 && old(sigalrm) then 1 else 0
      ensures sigalrm == (old(sigalrm) && old(delay) == 0)
    {
      if delay != 0 && sigalrm {
        PowersOfTwo(doublings);
        delay := delay * 2;
        doublings := doublings + 1;
        sigalrm := false;
      }
    }

    /** The children are told to go: politely at first, and killed outright once the delay has doubled
        five times. */
    method Escalate() returns (ghost signo: Signo)
      requires Valid() && (terminate || quit)
      modifies this`reap, this`delay, this`doublings, processes, kernel`log, kernel`kills, kernel`answer
      ensures Valid() && (delay != 0 <==> old(delay) != 0 || terminate)
      ensures doublings == if terminate && old(delay) == 0 then 0 else old(doublings)
      ensures signo == if !terminate then SIGQUIT else if doublings >= 5 then SIGKILL else SIGTERM
      ensures kernel.log == old(kernel.log) + Targets(old(processes[..]), last, signo)
      ensures forall i :: 0 <= i < last ==> Signalled(old(processes[i]), processes[i], signo, kernel.children)
      ensures old(Exact(processes[..], last, kernel.children)) ==>
                Exact(processes[..], last, kernel.children) && reap == old(reap)
                && AllExited(processes[..], last) == old(AllExited(processes[..], last))
    {
      hide TableOk, AllExited, Exact, Targets, Signalled;
      if terminate {
        if delay == 0 {
          delay := 50;
          doublings := 0;
        }
        PowersOfTwo(doublings);
        assert delay == 50 * Pow(2, doublings);
        hide Pow;
        if delay > 1000 {
          signo := SIGKILL;
          SignalChildren(SIGKILL);
        } else {
          signo := SIGTERM;
          SignalChildren(SIGTERM);
        }
      } else {
        signo := SIGQUIT;
        SignalChildren(SIGQUIT);
      }
    }

    /** No death of a child waits to be looked at, and live says whether one is left. */
    ghost predicate Current()
      reads this, processes, kernel
    {
      && Exact(processes[..], last, kernel.children)
      && !reap && (live <==> !AllExited(processes[..], last))
    }

    /** The part of a turn between the timer and the decision: the signals are handled, and if a death was
        announced the dead children are looked at. What is started again is exactly what the children looked
        like by then, whether or not a termination is pending. */
    method Collect(pending: seq<Signo>) returns (ghost collected: seq<Slot>)
      requires Valid()
      modifies this`reap, this`quit, this`terminate, this`sigalrm, this`live, this`last, this`late, processes
      modifies kernel`children, kernel`issued, kernel`forks, kernel`waits, kernel`idle, kernel`failed
      ensures Valid() && last == old(last) && late == old(late) && !reap
      ensures quit == (old(quit) || SIGQUIT in pending)
      ensures terminate == (old(terminate) || SIGINT in pending || SIGTERM in pending)
      ensures sigalrm == (old(sigalrm) || SIGALRM in pending)
      ensures old(Exact(processes[..], last, kernel.children)) ==> Exact(processes[..], last, kernel.children)
      ensures old(Current()) ==> Current()
      ensures !old(reap) && SIGCHLD !in pending ==> live == old(live)
      ensures last == 0 && SIGCHLD in pending ==> !live
      ensures |collected| == MAX_PROCESSES && forall i :: 0 <= i < last ==> Collected(old(processes[i]), collected[i])
      ensures Restarts(collected, processes[..], last, quit,
                       kernel.failed == old(kernel.failed) && (old(reap) || SIGCHLD in pending))
    {
      hide TableOk, AllExited, Exact, Respawned, Pow, Collected;
      Suspend(pending);
      collected := processes[..];
      TableBound(collected, last, kernel.children, kernel.issued);
      if reap {
        reap := false;
        live := ReapChildren();
        NoneLeft(processes[..]);
      }
    }

    /** The end of a turn: leave, or tell the children to go, or neither. */
    method Decide() returns (leave: bool, ghost round: Round)
      requires Valid() && !reap
      modifies this`reap, this`delay, this`doublings, processes, kernel`log, kernel`kills, kernel`answer
      ensures Valid() && (leave <==> (quit || terminate) && !live)
      ensures !leave ==> (delay != 0 <==> old(delay) != 0 || terminate)
      ensures !leave && terminate ==> doublings == if old(delay) == 0 then 0 else old(doublings)
      ensures old(Exact(processes[..], last, kernel.children)) ==> Exact(processes[..], last, kernel.children) && !reap
      ensures old(Current()) ==> Current()
      ensures forall i :: 0 <= i < last && i < processes.Length ==> processes[i].pid == old(processes[i]).pid
      ensures kernel.log == old(kernel.log) + Kills(round, last) && Reached(round, last)
      ensures round.signo == (if leave || !(quit || terminate) then None
                              else if !terminate then Some(SIGQUIT)
                              else if doublings >= 5 then Some(SIGKILL) else Some(SIGTERM))
      ensures round.signo.Some? ==>
                && round.asked == old(processes[..]) && round.children == kernel.children
                && |round.asked| == MAX_PROCESSES && last <= processes.Length
                && forall i :: 0 <= i < last ==>
                     Signalled(round.asked[i], processes[i], round.signo.value, kernel.children)
    {
      hide TableOk, AllExited, Exact, Targets, Pow, Signalled, Reached;
      leave, round := false, Round([], None, {});
      NoKills(round, last);
      if !live && (quit || terminate) {
        leave := true;
      } else if terminate || quit {
        ghost var asked := processes[..];
        TableBound(asked, last, kernel.children, kernel.issued);
        ghost var children, issued := kernel.children, kernel.issued;
        ghost var signo := Escalate();
        round := Round(asked, Some(signo), children);
        RoundReaches(round, last, issued);
        SignalKeepsPids(asked, processes[..], last, signo, kernel.children);
      }
    }

    /** One turn of the master's loop. If live was current it stays so, and the loop is left exactly when
        every child has exited and a quit or termination is pending; otherwise the children are signalled.
        No child is started while a quit is pending. */
    method Turn(pending: seq<Signo>)
      returns (leave: bool, ghost collected: seq<Slot>, ghost round: Round)
      requires Valid()
      modifies this, processes, kernel
      ensures Valid() && last == old(last) && late == old(late)
      ensures quit == (old(quit) || SIGQUIT in pending)
      ensures terminate == (old(terminate) || SIGINT in pending || SIGTERM in pending)
      ensures sigalrm == ((old(sigalrm) && old(delay) == 0) || SIGALRM in pending)
      ensures !leave ==> (delay != 0 <==> old(delay) != 0 || terminate)
      ensures !leave && terminate ==>
                doublings == if old(delay) == 0 then 0 else old(doublings) + if old(sigalrm) then 1 else 0
      ensures old(Exact(processes[..], last, kernel.children)) ==> Exact(processes[..], last, kernel.children)
      ensures leave <==> (quit || terminate) && !live
      ensures old(Current()) ==> Current()
      ensures old(Exact(processes[..], last, kernel.children)) ==> !reap
      ensures !old(reap) && SIGCHLD !in pending ==> live == old(live)
      ensures last == 0 && SIGCHLD in pending ==> !live
      ensures |collected| == MAX_PROCESSES && forall i :: 0 <= i < last ==> Collected(old(processes[i]), collected[i])
      ensures Restarts(collected, processes[..], last, quit,
                       kernel.failed == old(kernel.failed) && (old(reap) || SIGCHLD in pending))
      ensures kernel.log == old(kernel.log) + Kills(round, last) && Reached(round, last)
      ensures round.signo == (if leave || !(quit || terminate) then None
                              else if !terminate then Some(SIGQUIT)
                              else if doublings >= 5 then Some(SIGKILL) else Some(SIGTERM))
      ensures round.signo.Some? ==>
                && |round.asked| == MAX_PROCESSES && round.children == kernel.children
                && forall i :: 0 <= i < last ==>
                     Signalled(round.asked[i], processes[i], round.signo.value, kernel.children)
    {
      hide TableOk, AllExited, Exact, Targets, Pow, Signalled, Restarts, Collected, Reached;
      Tick();
      collected := Collect(pending);
      ghost var mid := processes[..];
      leave, round := Decide();
      TableBound(mid, last, kernel.children, kernel.issued);
      RestartsBefore(collected, mid, processes[..], last, quit,
                     kernel.failed == old(kernel.failed) && (old(reap) || SIGCHLD in pending));
    }

    /** ca_create_processes: n children, less those whose fork failed, in the next slots. */
    method CreateProcesses(program: nat, n: nat, kind: int)
      requires Valid() && live && DETACHED <= kind < 0 && last + n <= MAX_PROCESSES
      modifies this`last, this`late, processes, kernel`children, kernel`issued, kernel`forks, kernel`failed
      ensures Valid() && old(last) <= last && (!quit ==> late == old(late))
      ensures last + kernel.failed == old(last) + old(kernel.failed) + n && old(kernel.failed) <= kernel.failed
      ensures old(Exact(processes[..], last, kernel.children)) ==> Exact(processes[..], last, kernel.children)
      ensures last <= processes.Length && forall i :: 0 <= i < old(last) ==> processes[i] == old(processes[i])
      ensures forall i :: old(last) <= i < last ==> Started(processes[i], program, kind)
    {
      for i := 0 to n
        invariant Valid() && old(last) <= last && (!quit ==> late == old(late))
        invariant last + kernel.failed == old(last) + old(kernel.failed) + i && old(kernel.failed) <= kernel.failed
        invariant old(Exact(processes[..], last, kernel.children)) ==> Exact(processes[..], last, kernel.children)
        invariant last <= processes.Length && forall k :: 0 <= k < old(last) ==> processes[k] == old(processes[k])
        invariant forall k :: old(last) <= k < last ==> Started(processes[k], program, kind)
      {
        TableBound(processes[..], last, kernel.children, kernel.issued);
        hide TableOk, AllExited, Exact;
        ghost var was, n0 := processes[..], last;
        var pid := Spawn(program, kind);
        TableBound(processes[..], last, kernel.children, kernel.issued);
        if pid != -1 {
          assert forall k :: 0 <= k < n0 ==> processes[..][k] == was[k];
        }
      }
    }

    /** After k turns, the first asked to terminate being f: the flags and the delay are what the
        deliveries make them. */
    ghost predicate Clock(ds: seq<seq<Signo>>, f: nat, k: nat)
      requires f <= |ds| && k <= |ds|
      reads this
    {
      && quit == Arrived(ds, k, SIGQUIT) && terminate == (f < k) && (delay != 0 <==> f < k)
      && sigalrm == Unspent(ds, f, k) && (f < k ==> doublings == Doubled(ds, f, k))
    }

    lemma ClockStarts(ds: seq<seq<Signo>>)
      requires !quit && !terminate && delay == 0 && !sigalrm
      ensures Clock(ds, FirstAsked(ds, 0), 0) && !Arrived(ds, 0, SIGCHLD) && AllKills([], last) == []
    {
    }

    /** Turn k of the loop: the signal that it sends is a matter of the deliveries. */
    method TurnOf(ds: seq<seq<Signo>>, k: nat) returns (leave: bool, ghost round: Round)
      requires Valid() && k < |ds| && Clock(ds, FirstAsked(ds, 0), k)
      modifies this, processes, kernel
      ensures Valid() && last == old(last) && late == old(late)
      ensures !leave ==> Clock(ds, FirstAsked(ds, 0), k + 1) && round.signo == SignalOf(ds, k)
      ensures leave ==> quit || terminate
      ensures old(Exact(processes[..], last, kernel.children)) ==> Exact(processes[..], last, kernel.children) && !reap
      ensures leave <==> (quit || terminate) && !live
      ensures old(Current()) ==> Current()
      ensures !old(reap) && SIGCHLD !in ds[k] ==> live == old(live)
      ensures last == 0 && SIGCHLD in ds[k] ==> !live
      ensures kernel.log == old(kernel.log) + if leave then [] else Kills(round, last)
      ensures Reached(round, last)
    {
      hide TableOk, AllExited, Exact, Kills, Restarts, Collected, Signalled, Pow, Reached;
      ghost var f := FirstAsked(ds, 0);
      ArrivedStep(ds, k, SIGQUIT);
      UnspentStep(ds, f, k);
      if f <= k {
        DoubledStep(ds, f, k);
      }
      hide Doubled, Unspent, Arrived;
      ghost var collected;
      leave, collected, round := Turn(ds[k]);
      if leave {
        NoKills(round, last);
      }
    }

    /** The three children of the master, each of another program and to be started again when it exits. If a
        fork fails the others move down. */
    method StartChildren()
      requires Valid() && live && !quit && !reap && last == 0
      modifies this`last, this`late, processes, kernel`children, kernel`issued, kernel`forks, kernel`failed
      ensures Valid() && Exact(processes[..], last, kernel.children) && late == old(late)
      ensures last > 0 ==> Current()
      ensures last + kernel.failed == old(kernel.failed) + 3 && old(kernel.failed) <= kernel.failed
      ensures last <= processes.Length
      ensures forall i :: 0 <= i < last ==>
                i <= processes[i].program < 3 && Started(processes[i], processes[i].program, RESPAWN)
      ensures forall i, j :: 0 <= i < j < last ==> processes[i].program < processes[j].program
    {
      CreateProcesses(0, 1, RESPAWN);
      ghost var n := last;
      CreateProcesses(1, 1, RESPAWN);
      ghost var m := last;
      CreateProcesses(2, 1, RESPAWN);
      assert forall i :: 0 <= i < last ==> processes[i].program == if i < n then 0 else if i < m then 1 else 2;
      assert last > 0 ==> !processes[..][0].exited;
    }

    /** ca_master_process_cycle without a binary upgrade, for any sequence of signal deliveries. At
        every turn the table is right and no child is started after a quit. When the master leaves its
        loop none of its children is left; and while it stays, one is left or nobody asked it to go, if
        it managed to start a child at all. If it did not, it stays until a SIGCHLD is delivered. Which
        signal it sends its children in each turn is a matter of the deliveries alone. */
    method Cycle(deliveries: seq<seq<Signo>>) returns (left: bool, ghost rounds: seq<Round>)
      requires Valid() && live && !quit && !terminate && !reap && last == 0
      requires delay == 0 && !sigalrm
      modifies this, processes, kernel
      ensures Valid() && Exact(processes[..], last, kernel.children)
      ensures late == old(late)
      ensures left ==>
                (quit || terminate)
                && forall i :: 0 <= i < last ==> processes[i].exited && processes[i].pid !in kernel.children
      ensures !left && last > 0 && (quit || terminate) ==> exists i :: 0 <= i < last && !processes[i].exited
      ensures last == 0 ==> (left <==> (quit || terminate) && Arrived(deliveries, |deliveries|, SIGCHLD))
      ensures |rounds| <= |deliveries| && (!left ==> |rounds| == |deliveries|)
      ensures forall k :: 0 <= k < |rounds| ==> rounds[k].signo == SignalOf(deliveries, k)
      ensures kernel.log == old(kernel.log) + AllKills(rounds, last)
      ensures forall k :: 0 <= k < |rounds| ==> Reached(rounds[k], last)
    {
      hide TableOk, AllExited, Exact, Clock, Arrived, AllKills, Kills, SignalOf, FirstAsked, Reached;
      left, rounds := false, [];
      StartChildren();
      ClockStarts(deliveries);
      for k := 0 to |deliveries|
        invariant Valid() && Exact(processes[..], last, kernel.children) && late == old(late)
        invariant last > 0 ==> Current()
        invariant (quit || terminate ==> live) && !reap
        invariant last == 0 ==> (live <==> !Arrived(deliveries, k, SIGCHLD))
        invariant Clock(deliveries, FirstAsked(deliveries, 0), k)
        invariant |rounds| == k && forall j :: 0 <= j < k ==> rounds[j].signo == SignalOf(deliveries, j)
        invariant kernel.log == old(kernel.log) + AllKills(rounds, last)
        invariant forall j :: 0 <= j < k ==> Reached(rounds[j], last)
      {
        ghost var round;
        ArrivedStep(deliveries, k, SIGCHLD);
        left, round := TurnOf(deliveries, k);
        if left {
          if last == 0 {
            ArrivedBy(deliveries, k + 1, SIGCHLD);
          }
          break;
        }
        AddRound(rounds, round, last);
        rounds := rounds + [round];
      }
      TableBound(processes[..], last, kernel.children, kernel.issued);
      NoneLeftBehind(processes[..], last, kernel.children);
    }
  }

  lemma AddRound(rounds: seq<Round>, r: Round, last: nat)
    ensures AllKills(rounds + [r], last) == AllKills(rounds, last) + Kills(r, last)
  {
    assert (rounds + [r])[..|rounds|] == rounds;
  }

  lemma NoKills(r: Round, last: nat)
    requires r.signo == None
    ensures Kills(r, last) == [] && Reached(r, last)
  {
  }

  lemma SignalKeepsPids(was: seq<Slot>, now: seq<Slot>, last: nat, signo: Signo, children: set<int>)
    requires last <= |was| == |now| && forall i :: 0 <= i < last ==> Signalled(was[i], now[i], signo, children)
    ensures forall i :: 0 <= i < last ==> now[i].pid == was[i].pid
  {
  }

  lemma AllExitedSame(was: seq<Slot>, now: seq<Slot>, n: nat)
    requires n <= |was| == |now| && forall j :: 0 <= j < n ==> now[j] == was[j]
    ensures AllExited(now, n) <==> AllExited(was, n)
  {
  }

  lemma NoneLeftBehind(slots: seq<Slot>, last: nat, children: set<int>)
    requires last <= |slots| && Exact(slots, last, children)
    ensures AllExited(slots, last) ==> forall i :: 0 <= i < last ==> slots[i].exited && slots[i].pid !in children
    ensures !AllExited(slots, last) ==> exists i :: 0 <= i < last && !slots[i].exited
  {
  }

  lemma RestartsNone(slots: seq<Slot>, quit: bool)
    ensures Restarts(slots, slots, 0, quit, true)
  {
  }

  lemma RestartsStep(was: seq<Slot>, mid: seq<Slot>, now: seq<Slot>, i: nat, quit: bool, ok: bool, ok': bool)
    requires i < |was| == |mid| == |now| && Restarts(was, mid, i, quit, ok) && (ok' ==> ok)
    requires forall j :: 0 <= j < i ==> now[j] == mid[j]
    requires now[i].pid != was[i].pid ==> WantsRespawn(was[i], quit)
    requires ok' && WantsRespawn(was[i], quit) ==> now[i].pid != was[i].pid
    ensures Restarts(was, now, i + 1, quit, ok')
  {
  }

  lemma RestartsBefore(was: seq<Slot>, mid: seq<Slot>, now: seq<Slot>, last: nat, quit: bool, allForked: bool)
    requires last <= |was| == |mid| == |now| && Restarts(was, mid, last, quit, allForked)
    requires forall i :: 0 <= i < last ==> now[i].pid == mid[i].pid
    ensures Restarts(was, now, last, quit, allForked)
  {
  }

  lemma {:induction false} PowersOfTwo(k: nat)
    ensures Pow(2, k) > 0 && (50 * Pow(2, k) > 1000 <==> k >= 5)
    decreases k
  {
    assert Pow(2, 0) == 1 && Pow(2, 1) == 2 && Pow(2, 2) == 4;
    assert Pow(2, 3) == 2 * Pow(2, 2) && Pow(2, 4) == 2 * Pow(2, 3) && Pow(2, 5) == 2 * Pow(2, 4);
    if k > 5 {
      PowersOfTwo(k - 1);
    }
  }

  lemma SignalKeepsExited(was: seq<Slot>, now: seq<Slot>, last: nat, signo: Signo, children: set<int>)
    requires last <= |was| == |now| && forall i :: 0 <= i < last ==> Signalled(was[i], now[i], signo, children)
    ensures AllExited(was, last) ==> AllExited(now, last)
  {
  }

  lemma NoneLeft(slots: seq<Slot>)
    ensures AllExited(slots, 0)
  {
  }

  lemma TableBound(slots: seq<Slot>, last: nat, children: set<int>, issued: set<int>)
    requires TableOk(slots, last, children, issued)
    ensures last <= |slots| == MAX_PROCESSES
  {
  }

  lemma TableUsed(slots: seq<Slot>, last: nat, children: set<int>, issued: set<int>, i: nat)
    requires TableOk(slots, last, children, issued) && i < last
    ensures slots[i].pid != -1 && slots[i].pid in issued
  {
  }

  lemma AllExitedStep(slots: seq<Slot>, n: nat)
    requires n < |slots|
    ensures AllExited(slots, n + 1) <==> AllExited(slots, n) && slots[n].exited
  {
  }
}
