/** Why each client may be in one send at a time only: otherwise a cancellation can be lost. */
module LostCancellations {
  import opened Cancellation

  lemma Prepend(s: State, step: Step, next: State, rest: seq<Step>)
    requires Enabled(s, step) && Next(s, step) == next && AllowedRun(next, rest)
    ensures AllowedRun(s, [step] + rest) && After(s, [step] + rest) == After(next, rest)
  {
    assert ([step] + rest)[1..] == rest;
  }

  lemma {:induction false} ClosesAll(s: State, k: nat, todo: set<Client>) returns (steps: seq<Step>)
    requires k < |s.cancels| && s.cancels[k] == ClosingAll(todo)
    ensures AllowedRun(s, steps)
    ensures After(s, steps) == s.(closed := s.closed + todo, cancels := s.cancels[k := Returned])
    decreases todo
  {
    if todo == {} {
      steps := [];
      Prepend(s, Return(k), s.(cancels := s.cancels[k := Returned]), steps);
      steps := [Return(k)] + steps;
    } else {
      var c :| c in todo;
      var next := Next(s, CloseOne(k, c));
      steps := ClosesAll(next, k, todo - {c});
      assert next.cancels[k := Returned] == s.cancels[k := Returned];
      assert next.closed + (todo - {c}) == s.closed + todo;
      Prepend(s, CloseOne(k, c), next, steps);
      steps := [CloseOne(k, c)] + steps;
    }
  }

  /** A whole call of `cancel` closes exactly the clients in the set. */
  lemma CancelRuns(s: State, k: nat) returns (steps: seq<Step>)
    requires k < |s.cancels| && s.cancels[k] == NotCalled
    ensures AllowedRun(s, steps)
    ensures After(s, steps)
            == s.(event := true, closed := s.closed + s.clients, cancels := s.cancels[k := Returned])
  {
    var set0 := Next(s, SetEvent(k));
    var shot := Next(set0, Snapshot(k));
    steps := ClosesAll(shot, k, s.clients);
    assert shot.cancels[k := Returned] == s.cancels[k := Returned];
    Prepend(set0, Snapshot(k), shot, steps);
    steps := [Snapshot(k)] + steps;
    Prepend(s, SetEvent(k), set0, steps);
    steps := [SetEvent(k)] + steps;
  }

  /**
   The condition on `unregister` is needed wherever it fails: dropping a client that
   another worker holds lets the next cancellation miss that worker.
   */
  lemma SharedUnregisterLoses(s: State, w: nat, v: nat, k: nat) returns (steps: seq<Step>)
    requires Enabled(s, Unregister(w)) && v < |s.workers| && v != w && Complete(s.workers[v])
    requires s.workers[v].client == s.workers[w].client && s.workers[v].client !in s.closed
    requires k < |s.cancels| && s.cancels[k] == NotCalled
    ensures AllowedRun(s, [Unregister(w)] + steps)
    ensures var end := After(s, [Unregister(w)] + steps);
            end.cancels == s.cancels[k := Returned] && v < |end.workers| && end.workers[v] == s.workers[v]
            && s.workers[v].client !in end.closed
  {
    var next := Next(s, Unregister(w));
    steps := CancelRuns(next, k);
    Prepend(s, Unregister(w), next, steps);
  }

  /** One cancel call, two workers, nothing closed. */
  function Two(event: bool, clients: set<Client>, first: Phase, second: Phase, cancel: Cancel): State {
    State(event, clients, {}, [first, second], [cancel])
  }

  /** Two sends at a time on one client are enough to lose a cancellation. */
  lemma SharedClientLosesCancellation(c: Client) returns (s: State, steps: seq<Step>)
    ensures Initial(s) && AllowedRun(s, steps)
    ensures After(s, steps) == Two(true, {}, Idle, Sending(c), Returned)
  {
    var both := Two(false, {c}, Sending(c), Sending(c), NotCalled);
    var left := Two(false, {c}, Sent(c), Sending(c), NotCalled);
    var dropped := Two(false, {}, Idle, Sending(c), NotCalled);
    steps := CancelRuns(dropped, 0);
    assert dropped.cancels[0 := Returned] == [Returned] && dropped.closed + dropped.clients == {};
    assert left.workers[0 := Idle] == dropped.workers && both.workers[0 := Sent(c)] == left.workers;
    Prepend(left, Unregister(0), dropped, steps);
    steps := [Unregister(0)] + steps;
    Prepend(both, EndSend(0), left, steps);
    s, steps := BothSend(c, [EndSend(0)] + steps);
  }

  /** Two workers reach a send on the same client. */
  lemma BothSend(c: Client, rest: seq<Step>) returns (s: State, steps: seq<Step>)
    requires AllowedRun(Two(false, {c}, Sending(c), Sending(c), NotCalled), rest)
    ensures Initial(s) && AllowedRun(s, steps)
    ensures After(s, steps) == After(Two(false, {c}, Sending(c), Sending(c), NotCalled), rest)
  {
    var idle, busy := Two(false, {}, Idle, Idle, NotCalled), Two(false, {c}, Sending(c), Idle, NotCalled);
    assert [Sending(c), Idle][1 := Sending(c)] == [Sending(c), Sending(c)] && {c} + {c} == {c};
    steps := OneSends(busy, 1, c, rest);
    assert [Idle, Idle][0 := Sending(c)] == [Sending(c), Idle] && {} + {c} == {c};
    steps := OneSends(idle, 0, c, steps);
    s := idle;
  }

  /** Without a cancellation, an idle worker can always reach a send. */
  lemma OneSends(s: State, w: nat, c: Client, rest: seq<Step>) returns (steps: seq<Step>)
    requires !s.event && w < |s.workers| && s.workers[w] == Idle
    requires AllowedRun(At(s, w, Sending(c)).(clients := s.clients + {c}), rest)
    ensures AllowedRun(s, steps)
    ensures After(s, steps) == After(At(s, w, Sending(c)).(clients := s.clients + {c}), rest)
  {
    var there := s.(clients := s.clients + {c});
    Prepend(At(there, w, Registered(c)), StartSend(w), At(there, w, Sending(c)), rest);
    Prepend(At(there, w, Added(c)), ReCheck(w), At(there, w, Registered(c)), [StartSend(w)] + rest);
    Prepend(At(s, w, Checked(c)), Add(w), At(there, w, Added(c)), [ReCheck(w)] + ([StartSend(w)] + rest));
    steps := [Add(w)] + ([ReCheck(w)] + ([StartSend(w)] + rest));
    Prepend(s, PreCheck(w, c), At(s, w, Checked(c)), steps);
    steps := [PreCheck(w, c)] + steps;
  }
}
