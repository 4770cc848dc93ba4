/**
 `Sockets` in `services/repair-api/src/repair_api/cancellation.py:173-220`. The three bodies under the
 lock exclude each other, so each is one atomic step of the interleaving.
 */
module Sockets {
  type Fd = nat

  /** The calls made on duplicated descriptors. */
  datatype Call = Shutdown(fd: Fd) | CloseFd(fd: Fd)

  /** `shutdown` of each descriptor in turn, and the close of its `finally`. */
  function ShutAll(fds: seq<Fd>): seq<Call> {
    if |fds| == 0 then [] else ShutAll(fds[..|fds| - 1]) + [Shutdown(fds[|fds| - 1]), CloseFd(fds[|fds| - 1])]
  }

  function CloseAll(fds: seq<Fd>): seq<Call> {
    if |fds| == 0 then [] else CloseAll(fds[..|fds| - 1]) + [CloseFd(fds[|fds| - 1])]
  }

  /** `pending`: duplicates made by a `trace` that has not yet taken the lock. */
  datatype State = State(next: Fd, pending: seq<Fd>, cancelled: bool, sockets: seq<Fd>, log: seq<Call>)

  const INITIAL := State(0, [], false, [], [])

  datatype Step = Dup | Trace(i: nat) | Close | Release

  function TracedState(s: State, fd: Fd): State {
    if s.cancelled then s.(log := s.log + [Shutdown(fd), CloseFd(fd)]) else s.(sockets := s.sockets + [fd])
  }

  function ClosedState(s: State): State {
    s.(cancelled := true, sockets := [], log := s.log + ShutAll(s.sockets))
  }

  function ReleasedState(s: State): State {
    s.(sockets := [], log := s.log + CloseAll(s.sockets))
  }

  predicate Enabled(s: State, step: Step) {
    step.Trace? ==> step.i < |s.pending|
  }

  function Next(s: State, step: Step): State
    requires Enabled(s, step)
  {
    match step
    case Dup => s.(next := s.next + 1, pending := s.pending + [s.next])
    case Trace(i) => TracedState(s.(pending := s.pending[..i] + s.pending[i + 1..]), s.pending[i])
    case Close => ClosedState(s)
    case Release => ReleasedState(s)
  }

  predicate AllowedRun(s: State, steps: seq<Step>)
    decreases |steps|
  {
    |steps| > 0 ==> Enabled(s, steps[0]) && AllowedRun(Next(s, steps[0]), steps[1..])
  }

  function After(s: State, steps: seq<Step>): State
    requires AllowedRun(s, steps)
    decreases |steps|
  {
    if |steps| == 0 then s else After(Next(s, steps[0]), steps[1..])
  }

  // --- the object whose methods these steps are ---------------------------------------------

  class SocketList {
    var cancelled: bool
    var sockets: seq<Fd>
    /** What was asked of the operating system so far. */
    var log: seq<Call>

    /** The part of the state that the lock protects. */
    ghost function Guarded(s: State): State
      reads this
    {
      s.(cancelled := cancelled, sockets := sockets, log := log)
    }

    constructor ()
      ensures Guarded(INITIAL) == INITIAL
    {
      cancelled, sockets, log := false, [], [];
    }

    method ShutdownFd(fd: Fd)
      modifies this`log
      ensures log == old(log) + [Shutdown(fd), CloseFd(fd)]
    {
      log := log + [Shutdown(fd)];
      log := log + [CloseFd(fd)];
    }

    method Trace(duplicate: Fd, ghost s: State)
      requires Guarded(s) == s
      modifies this
      ensures Guarded(s) == TracedState(s, duplicate)
    {
      if cancelled {
        ShutdownFd(duplicate);
      } else {
        sockets := sockets + [duplicate];
      }
    }

    method Close(ghost s: State)
      requires Guarded(s) == s
      modifies this
      ensures Guarded(s) == ClosedState(s)
    {
      cancelled := true;
      for i := 0 to |sockets|
        invariant cancelled && sockets == s.sockets && log == s.log + ShutAll(sockets[..i])
      {
        ShutdownFd(sockets[i]);
        assert sockets[..i + 1][..i] == sockets[..i];
      }
      assert sockets[..|sockets|] == sockets;
      sockets := [];
    }

    method Release(ghost s: State)
      requires Guarded(s) == s
      modifies this
      ensures Guarded(s) == ReleasedState(s)
    {
      for i := 0 to |sockets|
        invariant cancelled == s.cancelled && sockets == s.sockets && log == s.log + CloseAll(sockets[..i])
      {
        log := log + [CloseFd(sockets[i])];
        assert sockets[..i + 1][..i] == sockets[..i];
      }
      assert sockets[..|sockets|] == sockets;
      sockets := [];
    }
  }

  // --- ownership --------------------------------------------------------------------------------

  /** How often the descriptor was closed. */
  function Closes(log: seq<Call>, fd: Fd): nat {
    multiset(log)[CloseFd(fd)]
  }

  /** Nothing is shut down after it was closed. */
  ghost predicate NoLateShutdown(log: seq<Call>) {
    forall i, j | 0 <= i < j < |log| && log[i].CloseFd? && log[j].Shutdown? :: log[i].fd != log[j].fd
  }

  /** Every duplicate is pending, held or closed, once. */
  ghost predicate Inv(s: State) {
    && (forall fd: Fd :: multiset(s.pending)[fd] + multiset(s.sockets)[fd] + Closes(s.log, fd)
                      == if fd < s.next then 1 else 0)
    && NoLateShutdown(s.log)
    && (s.cancelled ==> s.sockets == [])
  }

  lemma {:induction false} ShutAllCloses(fds: seq<Fd>, fd: Fd)
    ensures Closes(ShutAll(fds), fd) == multiset(fds)[fd]
  {
    if |fds| == 0 {
    } else {
      var n := |fds| - 1;
      ShutAllCloses(fds[..n], fd);
      assert fds == fds[..n] + [fds[n]];
    }
  }

  lemma {:induction false} CloseAllCloses(fds: seq<Fd>, fd: Fd)
    ensures Closes(CloseAll(fds), fd) == multiset(fds)[fd]
  {
    if |fds| == 0 {
    } else {
      var n := |fds| - 1;
      CloseAllCloses(fds[..n], fd);
      assert fds == fds[..n] + [fds[n]];
    }
  }

  /** Shutting down and closing what was not closed yet. */
  lemma OneMore(log: seq<Call>, fd: Fd)
    requires NoLateShutdown(log) && Closes(log, fd) == 0
    ensures NoLateShutdown(log + [Shutdown(fd), CloseFd(fd)])
  {
    var more := log + [Shutdown(fd), CloseFd(fd)];
    forall i, j | 0 <= i < j < |more| && more[i].CloseFd? && more[j].Shutdown? ensures more[i].fd != more[j].fd {
      assert j <= |log| && more[i] == log[i];
      assert log[i] in multiset(log);
    }
  }

  lemma OneMoreCount(log: seq<Call>, fd: Fd, x: Fd)
    ensures Closes(log + [Shutdown(fd), CloseFd(fd)], x) == Closes(log, x) + if x == fd then 1 else 0
  {
    assert multiset([Shutdown(fd), CloseFd(fd)]) == multiset{Shutdown(fd), CloseFd(fd)};
  }

  lemma {:induction false} ShutAllIsTimely(log: seq<Call>, fds: seq<Fd>)
    requires NoLateShutdown(log)
    requires forall fd: Fd :: multiset(fds)[fd] + Closes(log, fd) <= 1
    ensures NoLateShutdown(log + ShutAll(fds))
  {
    if |fds| == 0 {
      assert log + ShutAll(fds) == log;
    } else {
      var n := |fds| - 1;
      var before, last := log + ShutAll(fds[..n]), fds[n];
      LastCounts(fds);
      ShutAllIsTimely(log, fds[..n]);
      ShutAllCloses(fds[..n], last);
      assert Closes(before, last) == Closes(log, last) + Closes(ShutAll(fds[..n]), last);
      OneMore(before, last);
      assert log + ShutAll(fds) == before + [Shutdown(last), CloseFd(last)];
    }
  }

  lemma LastCounts(fds: seq<Fd>)
    requires |fds| > 0
    ensures forall fd: Fd ::
              multiset(fds)[fd] == multiset(fds[..|fds| - 1])[fd] + if fd == fds[|fds| - 1] then 1 else 0
  {
    assert fds == fds[..|fds| - 1] + [fds[|fds| - 1]];
  }

  lemma {:induction false} CloseAllIsTimely(log: seq<Call>, fds: seq<Fd>)
    requires NoLateShutdown(log)
    ensures NoLateShutdown(log + CloseAll(fds))
  {
    if |fds| == 0 {
      assert log + CloseAll(fds) == log;
    } else {
      var n := |fds| - 1;
      CloseAllIsTimely(log, fds[..n]);
      assert log + CloseAll(fds) == (log + CloseAll(fds[..n])) + [CloseFd(fds[n])];
    }
  }

  lemma TraceKeeps(s: State, i: nat)
    requires Inv(s) && i < |s.pending|
    ensures Inv(Next(s, Trace(i)))
  {
    var fd, rest := s.pending[i], s.pending[..i] + s.pending[i + 1..];
    PickOne(s.pending, i);
    assert Closes(s.log, fd) == 0;
    var next := Next(s, Trace(i));
    if s.cancelled {
      OneMore(s.log, fd);
      forall x: Fd ensures Closes(next.log, x) == Closes(s.log, x) + if x == fd then 1 else 0 {
        OneMoreCount(s.log, fd, x);
      }
    }
  }

  lemma PickOne(fds: seq<Fd>, i: nat)
    requires i < |fds|
    ensures forall x: Fd ::
              multiset(fds)[x] == multiset(fds[..i] + fds[i + 1..])[x] + if x == fds[i] then 1 else 0
  {
    assert fds == (fds[..i] + [fds[i]]) + fds[i + 1..];
  }

  lemma CloseKeeps(s: State)
    requires Inv(s)
    ensures Inv(ClosedState(s))
  {
    ShutAllIsTimely(s.log, s.sockets);
    forall fd: Fd ensures Closes(s.log + ShutAll(s.sockets), fd) == Closes(s.log, fd) + multiset(s.sockets)[fd] {
      ShutAllCloses(s.sockets, fd);
    }
  }

  lemma ReleaseKeeps(s: State)
    requires Inv(s)
    ensures Inv(ReleasedState(s))
  {
    CloseAllIsTimely(s.log, s.sockets);
    forall fd: Fd ensures Closes(s.log + CloseAll(s.sockets), fd) == Closes(s.log, fd) + multiset(s.sockets)[fd] {
      CloseAllCloses(s.sockets, fd);
    }
  }

  lemma StepKeeps(s: State, step: Step)
    requires Inv(s) && Enabled(s, step)
    ensures Inv(Next(s, step))
  {
    match step
    case Dup =>
    case Trace(i) => TraceKeeps(s, i);
    case Close => CloseKeeps(s);
    case Release => ReleaseKeeps(s);
  }

  /** In every interleaving each duplicate has one owner or was closed once, and no shutdown comes late. */
  lemma {:induction false} RunKeeps(s: State, steps: seq<Step>)
    requires Inv(s) && AllowedRun(s, steps)
    ensures Inv(After(s, steps))
    decreases |steps|
  {
    if |steps| == 0 {
    } else {
      StepKeeps(s, steps[0]);
      RunKeeps(Next(s, steps[0]), steps[1..]);
    }
  }

  /** After the context has exited, only a late `close` can still run. */
  lemma {:induction false} LateCloses(s: State, steps: seq<Step>)
    requires s.sockets == [] && AllowedRun(s, steps)
    requires forall i | 0 <= i < |steps| :: steps[i] == Close
    ensures After(s, steps).(cancelled := true) == s.(cancelled := true)
    decreases |steps|
  {
    if |steps| == 0 {
    } else {
      assert s.log + ShutAll([]) == s.log;
      LateCloses(Next(s, steps[0]), steps[1..]);
    }
  }

  lemma {:induction false} Appended(s: State, a: seq<Step>, b: seq<Step>)
    requires AllowedRun(s, a + b)
    ensures AllowedRun(s, a) && AllowedRun(After(s, a), b) && After(s, a + b) == After(After(s, a), b)
    decreases |a|
  {
    if |a| == 0 {
      assert a + b == b;
    } else {
      assert (a + b)[1..] == a[1..] + b;
      Appended(Next(s, a[0]), a[1..], b);
    }
  }

  /**
   Whatever interleaving comes before the release of the context, and however many calls of
   `close` follow it: each duplicated descriptor is closed exactly once, none is left open,
   and none is shut down after it was closed.
   */
  lemma ExactlyOneClose(before: seq<Step>, closes: seq<Step>)
    requires AllowedRun(INITIAL, before + ([Release] + closes))
    requires forall i | 0 <= i < |closes| :: closes[i] == Close
    requires AllowedRun(INITIAL, before) && After(INITIAL, before).pending == []
    ensures var end := After(INITIAL, before + ([Release] + closes));
            end.sockets == [] && end.pending == [] && NoLateShutdown(end.log)
            && forall fd: Fd :: Closes(end.log, fd) == if fd < end.next then 1 else 0
  {
    var s := After(INITIAL, before);
    Appended(INITIAL, before, [Release] + closes);
    Appended(s, [Release], closes);
    RunKeeps(INITIAL, before + ([Release] + closes));
    var released := ReleasedState(s);
    assert After(s, [Release]) == released;
    LateCloses(released, closes);
  }

  /** The flag is set by `close`, by nothing else, and for good. */
  lemma {:induction false} FlagMeansClose(s: State, steps: seq<Step>)
    requires AllowedRun(s, steps)
    ensures After(s, steps).cancelled <==> s.cancelled || Close in steps
    decreases |steps|
  {
    if |steps| == 0 {
    } else {
      assert steps == [steps[0]] + steps[1..];
      FlagMeansClose(Next(s, steps[0]), steps[1..]);
    }
  }

  /** How often the descriptor was shut down. */
  function Shuts(log: seq<Call>, fd: Fd): nat {
    multiset(log)[Shutdown(fd)]
  }

  lemma {:induction false} ShutAllShuts(fds: seq<Fd>, fd: Fd)
    ensures Shuts(ShutAll(fds), fd) == Closes(ShutAll(fds), fd)
  {
    if |fds| == 0 {
    } else {
      var n := |fds| - 1;
      ShutAllShuts(fds[..n], fd);
      ShutsOfOne(ShutAll(fds[..n]), fds[n], fd);
      OneMoreCount(ShutAll(fds[..n]), fds[n], fd);
    }
  }

  lemma ShutsOfOne(log: seq<Call>, fd: Fd, x: Fd)
    ensures Shuts(log + [Shutdown(fd), CloseFd(fd)], x) == Shuts(log, x) + if x == fd then 1 else 0
  {
    assert multiset([Shutdown(fd), CloseFd(fd)]) == multiset{Shutdown(fd), CloseFd(fd)};
  }

  lemma {:induction false} CloseAllShutsNothing(fds: seq<Fd>, fd: Fd)
    ensures Shuts(CloseAll(fds), fd) == 0
  {
    if |fds| == 0 {
    } else {
      CloseAllShutsNothing(fds[..|fds| - 1], fd);
    }
  }

  lemma NextCounts(s: State, step: Step, fd: Fd)
    requires Enabled(s, step)
    ensures var log, next := s.log, Next(s, step).log;
            && (step != Release && Shuts(log, fd) == Closes(log, fd) ==> Shuts(next, fd) == Closes(next, fd))
            && (step != Close && !s.cancelled && Shuts(log, fd) == 0 ==> Shuts(next, fd) == 0)
            && (step != Close && step != Release && !s.cancelled ==> next == log)
  {
    match step
    case Dup =>
    case Trace(i) =>
      ShutsOfOne(s.log, s.pending[i], fd);
      OneMoreCount(s.log, s.pending[i], fd);
    case Close => ShutAllShuts(s.sockets, fd);
    case Release => CloseAllShutsNothing(s.sockets, fd);
  }

  /** Without a release every descriptor that is closed is shut down as well. */
  lemma {:induction false} ClosedIsShut(s: State, steps: seq<Step>, fd: Fd)
    requires AllowedRun(s, steps) && Release !in steps && Shuts(s.log, fd) == Closes(s.log, fd)
    ensures Shuts(After(s, steps).log, fd) == Closes(After(s, steps).log, fd)
    decreases |steps|
  {
    if |steps| == 0 {
    } else {
      assert steps == [steps[0]] + steps[1..];
      NextCounts(s, steps[0], fd);
      ClosedIsShut(Next(s, steps[0]), steps[1..], fd);
    }
  }

  /**
   Once `close` was called, only duplicates that still wait for the lock are open.  All others,
   traced before or after it, are closed exactly once, and unless the context was released
   they were shut down, so that no request runs on.
   */
  lemma NothingSurvivesClose(steps: seq<Step>, fd: Fd)
    requires AllowedRun(INITIAL, steps) && Close in steps
    ensures var end := After(INITIAL, steps);
            fd < end.next && fd !in end.pending ==>
              Closes(end.log, fd) == 1 && (Release !in steps ==> Shuts(end.log, fd) == 1)
  {
    RunKeeps(INITIAL, steps);
    FlagMeansClose(INITIAL, steps);
    var end := After(INITIAL, steps);
    if fd !in end.pending {
      assert multiset(end.pending)[fd] == 0;
    }
    if Release !in steps {
      ClosedIsShut(INITIAL, steps, fd);
    }
  }

  /** Without a `close` no connection is shut down, and before the release none is closed either. */
  lemma {:induction false} NothingHappensBefore(s: State, steps: seq<Step>, fd: Fd)
    requires AllowedRun(s, steps) && Close !in steps && !s.cancelled && Shuts(s.log, fd) == 0
    ensures Shuts(After(s, steps).log, fd) == 0
    ensures Release !in steps ==> After(s, steps).log == s.log
    decreases |steps|
  {
    if |steps| == 0 {
    } else {
      assert steps == [steps[0]] + steps[1..];
      NextCounts(s, steps[0], fd);
      FlagMeansClose(s, [steps[0]]);
      NothingHappensBefore(Next(s, steps[0]), steps[1..], fd);
    }
  }

  /** Why no `trace` may run after the release: such a duplicate is closed only if `close` came first. */
  lemma LateTraceLeaks(s: State, i: nat)
    requires Inv(s) && i < |s.pending|
    ensures Closes(Next(ReleasedState(s), Trace(i)).log, s.pending[i]) == 1 <==> s.cancelled
  {
    ReleaseKeeps(s);
    TraceKeeps(ReleasedState(s), i);
    PickOne(s.pending, i);
    OneMoreCount(ReleasedState(s).log, s.pending[i], s.pending[i]);
  }
}
