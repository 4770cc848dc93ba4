/**
 `services/repair-api/src/repair_api/cancellation.py:62-126` against the `send_wrapper` of
 `services/repair-api/src/repair_api/usage_tracker.py`, as threads that interleave one
 atomic step at a time: a lock-protected block or one access to the event is one step.
 */
module Cancellation {
  type Client = nat

  /** Where a worker thread is in `send_wrapper`. */
  datatype Phase =
    | Idle
    | Raised                     // the pre-check saw the flag
    | Checked(client: Client)    // the pre-check passed
    | Added(client: Client)      // in `register`, after the set was extended
    | Closing(client: Client)    // in `register`, having seen the event
    | Registered(client: Client) // `register` has returned
    | Sending(client: Client)
    | Sent(client: Client)       // in `finally`, before `unregister`

  /** Where a call of `cancel` is. */
  datatype Cancel =
    | NotCalled
    | EventSet
    | ClosingAll(todo: set<Client>)
    | Returned

  datatype State = State(
    event: bool, clients: set<Client>, closed: set<Client>, workers: seq<Phase>, cancels: seq<Cancel>)

  datatype Step =
    | PreCheck(w: nat, client: Client)
    | Add(w: nat)
    | ReCheck(w: nat)
    | CloseOwn(w: nat)
    | StartSend(w: nat)
    | EndSend(w: nat)
    | Unregister(w: nat)
    | Leave(w: nat)
    | SetEvent(k: nat)
    | Snapshot(k: nat)
    | CloseOne(k: nat, client: Client)
    | Return(k: nat)

  predicate Enabled(s: State, step: Step) {
    match step
    case PreCheck(w, _) => w < |s.workers| && s.workers[w] == Idle
    case Add(w) => w < |s.workers| && s.workers[w].Checked?
    case ReCheck(w) => w < |s.workers| && s.workers[w].Added?
    case CloseOwn(w) => w < |s.workers| && s.workers[w].Closing?
    case StartSend(w) => w < |s.workers| && s.workers[w].Registered?
    case EndSend(w) => w < |s.workers| && s.workers[w].Sending?
    case Unregister(w) => w < |s.workers| && s.workers[w].Sent?
    case Leave(w) => w < |s.workers| && s.workers[w].Raised?
    case SetEvent(k) => k < |s.cancels| && s.cancels[k] == NotCalled
    case Snapshot(k) => k < |s.cancels| && s.cancels[k] == EventSet
    case CloseOne(k, c) => k < |s.cancels| && s.cancels[k].ClosingAll? && c in s.cancels[k].todo
    case Return(k) => k < |s.cancels| && s.cancels[k] == ClosingAll({})
  }

  function At(s: State, w: nat, p: Phase): State
    requires w < |s.workers|
  {
    s.(workers := s.workers[w := p])
  }

  function Next(s: State, step: Step): State
    requires Enabled(s, step)
  {
    match step
    case PreCheck(w, c) => At(s, w, if s.event then Raised else Checked(c))
    case Add(w) => At(s, w, Added(s.workers[w].client)).(clients := s.clients + {s.workers[w].client})
    case ReCheck(w) =>
      At(s, w, if s.event then Closing(s.workers[w].client) else Registered(s.workers[w].client))
    case CloseOwn(w) => At(s, w, Registered(s.workers[w].client)).(closed := s.closed + {s.workers[w].client})
    case StartSend(w) => At(s, w, Sending(s.workers[w].client))
    case EndSend(w) => At(s, w, Sent(s.workers[w].client))
    case Unregister(w) => At(s, w, Idle).(clients := s.clients - {s.workers[w].client})
    case Leave(w) => At(s, w, Idle)
    case SetEvent(k) => s.(event := true, cancels := s.cancels[k := EventSet])
    case Snapshot(k) => s.(cancels := s.cancels[k := ClosingAll(s.clients)])
    case CloseOne(k, c) =>
      s.(closed := s.closed + {c}, cancels := s.cancels[k := ClosingAll(s.cancels[k].todo - {c})])
    case Return(k) => s.(cancels := s.cancels[k := Returned])
  }

  predicate Initial(s: State) {
    && !s.event && s.clients == {} && s.closed == {}
    && (forall w | 0 <= w < |s.workers| :: s.workers[w] == Idle)
    && (forall k | 0 <= k < |s.cancels| :: s.cancels[k] == NotCalled)
  }

  /** The worker is past `register`'s insertion and has not unregistered yet. */
  predicate Holds(p: Phase) {
    p.Added? || p.Closing? || Complete(p)
  }

  /** `register` has returned and `unregister` has not run. */
  predicate Complete(p: Phase) {
    p.Registered? || p.Sending? || p.Sent?
  }

  /** Each client is in at most one send at a time. */
  ghost predicate Exclusive(s: State) {
    forall v, w | 0 <= v < w < |s.workers| && Holds(s.workers[v]) && Holds(s.workers[w]) ::
      s.workers[v].client != s.workers[w].client
  }

  /** The states along a run, ending with the last. */
  predicate AllowedRun(s: State, steps: seq<Step>)
    decreases |steps|
  {
    |steps| > 0 ==> Enabled(s, steps[0]) && AllowedRun(Next(s, steps[0]), steps[1..])
  }

  function After(s: State, steps: seq<Step>): State
    requires AllowedRun(s, steps)
    decreases |steps|
  {
    if |steps| == 0 then s else After(Next(s, steps[0]), steps[1..])
  }

  /** No other worker holds the client that the step drops from the set. */
  ghost predicate Lone(s: State, step: Step)
    requires Enabled(s, step)
  {
    step.Unregister? ==>
      forall v | 0 <= v < |s.workers| && v != step.w && Holds(s.workers[v]) ::
        s.workers[v].client != s.workers[step.w].client
  }

  lemma ExclusiveIsLone(s: State, step: Step)
    requires Exclusive(s) && Enabled(s, step)
    ensures Lone(s, step)
  {
    if step.Unregister? {
      forall v | 0 <= v < |s.workers| && v != step.w && Holds(s.workers[v])
        ensures s.workers[v].client != s.workers[step.w].client
      {
        assert Holds(s.workers[step.w]);
      }
    }
  }

  ghost predicate LoneRun(s: State, steps: seq<Step>)
    requires AllowedRun(s, steps)
    decreases |steps|
  {
    |steps| > 0 ==> Lone(s, steps[0]) && LoneRun(Next(s, steps[0]), steps[1..])
  }

  // --- no cancellation is lost -------------------------------------------------------------

  /** Nothing is left for this cancel call to do about the client. */
  predicate DoneWith(cancel: Cancel, c: Client) {
    cancel.Returned? || (cancel.ClosingAll? && c !in cancel.todo)
  }

  ghost predicate Inv(s: State) {
    && (forall k | 0 <= k < |s.cancels| && !s.event :: s.cancels[k] == NotCalled)
    && (forall w | 0 <= w < |s.workers| && Holds(s.workers[w]) :: s.workers[w].client in s.clients)
    && (forall w | 0 <= w < |s.workers| && s.workers[w].Closing? :: s.event)
    && (forall w, k | 0 <= w < |s.workers| && 0 <= k < |s.cancels| && Complete(s.workers[w])
          && DoneWith(s.cancels[k], s.workers[w].client) :: s.workers[w].client in s.closed)
  }

  lemma StepKeeps(s: State, step: Step)
    requires Inv(s) && Enabled(s, step) && Lone(s, step)
    ensures Inv(Next(s, step))
  {
  }

  lemma {:induction false} RunKeeps(s: State, steps: seq<Step>)
    requires Inv(s) && AllowedRun(s, steps) && LoneRun(s, steps)
    ensures Inv(After(s, steps))
    decreases |steps|
  {
    if |steps| == 0 {
    } else {
      StepKeeps(s, steps[0]);
      RunKeeps(Next(s, steps[0]), steps[1..]);
    }
  }

  /**
   In every interleaving, once a `cancel` and a `register` have both returned, the client
   is closed or was unregistered.
   */
  lemma NoLostCancellation(s: State, steps: seq<Step>, k: nat, w: nat)
    requires Initial(s) && AllowedRun(s, steps) && LoneRun(s, steps)
    requires k < |After(s, steps).cancels| && After(s, steps).cancels[k] == Returned
    requires w < |After(s, steps).workers| && Complete(After(s, steps).workers[w])
    ensures After(s, steps).workers[w].client in After(s, steps).closed
  {
    RunKeeps(s, steps);
  }

  // --- no send after a raised flag ------------------------------------------------------------

  lemma {:induction false} RunSplits(s: State, steps: seq<Step>, i: nat)
    requires AllowedRun(s, steps) && i <= |steps|
    ensures AllowedRun(s, steps[..i]) && AllowedRun(After(s, steps[..i]), steps[i..])
    decreases i
  {
    if i == 0 {
    } else {
      RunSplits(Next(s, steps[0]), steps[1..], i - 1);
      assert steps[..i][1..] == steps[1..][..i - 1] && steps[1..][i - 1..] == steps[i..];
    }
  }

  /** The worker is outside of a send and every pre-check will stop it. */
  predicate Barred(s: State, w: nat) {
    s.event && w < |s.workers| && (s.workers[w].Idle? || s.workers[w].Raised?)
  }

  lemma {:induction false} StaysBarred(s: State, steps: seq<Step>, w: nat, j: nat)
    requires Barred(s, w) && AllowedRun(s, steps) && j < |steps|
    ensures steps[j] != StartSend(w)
    decreases |steps|
  {
    if j == 0 {
    } else {
      StaysBarred(Next(s, steps[0]), steps[1..], w, j - 1);
    }
  }

  /** A worker whose pre-check saw the flag starts no send from then on. */
  lemma NoSendAfterFlag(s: State, steps: seq<Step>, i: nat, j: nat, w: nat, client: Client)
    requires AllowedRun(s, steps) && i < j < |steps|
    requires steps[i] == PreCheck(w, client) && AllowedRun(s, steps[..i]) && After(s, steps[..i]).event
    ensures steps[j] != StartSend(w)
  {
    RunSplits(s, steps, i);
    var rest := steps[i..];
    assert rest[j - i] == steps[j];
    StaysBarred(After(s, steps[..i]), rest, w, j - i);
  }

  // --- nothing is closed or kept for no reason ----------------------------------------------

  ghost predicate Held(s: State, c: Client) {
    exists w | 0 <= w < |s.workers| :: Holds(s.workers[w]) && s.workers[w].client == c
  }

  /** Some call of `cancel` has begun. */
  predicate Called(s: State) {
    exists k | 0 <= k < |s.cancels| :: s.cancels[k] != NotCalled
  }

  ghost predicate Warranted(s: State) {
    && (forall c | c in s.clients :: Held(s, c))
    && (s.event <==> Called(s)) && (s.closed != {} ==> s.event)
    && forall w | 0 <= w < |s.workers| && s.workers[w].Closing? :: s.event
  }

  lemma HeldStays(s: State, step: Step, c: Client)
    requires Enabled(s, step) && Held(s, c) && c in Next(s, step).clients
    ensures Held(Next(s, step), c)
  {
    var w :| 0 <= w < |s.workers| && Holds(s.workers[w]) && s.workers[w].client == c;
    var t := Next(s, step);
    assert 0 <= w < |t.workers| && Holds(t.workers[w]) && t.workers[w].client == c;
  }

  lemma CallStays(s: State, step: Step)
    requires Enabled(s, step) && Called(s)
    ensures Called(Next(s, step))
  {
    var k :| 0 <= k < |s.cancels| && s.cancels[k] != NotCalled;
    assert Next(s, step).cancels[k] != NotCalled;
  }

  lemma CallBegins(s: State, step: Step)
    requires Enabled(s, step) && !Called(s)
    ensures Called(Next(s, step)) <==> step.SetEvent?
    ensures Next(s, step).event <==> s.event || step.SetEvent?
  {
    var t := Next(s, step);
    if step.SetEvent? {
      assert t.cancels[step.k] != NotCalled;
    } else {
      assert forall k | 0 <= k < |s.cancels| :: s.cancels[k] == NotCalled;
    }
  }

  lemma StepIsWarranted(s: State, step: Step)
    requires Warranted(s) && Enabled(s, step)
    ensures Warranted(Next(s, step))
  {
    var t := Next(s, step);
    forall c | c in t.clients ensures Held(t, c) {
      if c in s.clients {
        HeldStays(s, step, c);
      } else {
        assert Holds(t.workers[step.w]);
      }
    }
    if Called(s) {
      CallStays(s, step);
    } else {
      CallBegins(s, step);
    }
  }

  lemma {:induction false} RunIsWarranted(s: State, steps: seq<Step>)
    requires Warranted(s) && AllowedRun(s, steps)
    ensures Warranted(After(s, steps))
    decreases |steps|
  {
    if |steps| == 0 {
    } else {
      StepIsWarranted(s, steps[0]);
      RunIsWarranted(Next(s, steps[0]), steps[1..]);
    }
  }

  /**
   In every interleaving a registered client is in a send, so none is left once all workers
   are idle; and the event is set, and a client closed, only once a `cancel` has begun.
   */
  lemma NothingForNoReason(s: State, steps: seq<Step>)
    requires Initial(s) && AllowedRun(s, steps)
    ensures forall c | c in After(s, steps).clients :: Held(After(s, steps), c)
    ensures (forall w | 0 <= w < |After(s, steps).workers| :: After(s, steps).workers[w].Idle?) ==>
              After(s, steps).clients == {}
    ensures After(s, steps).event <==> Called(After(s, steps))
    ensures !Called(After(s, steps)) ==> After(s, steps).closed == {}
  {
    RunIsWarranted(s, steps);
  }

  /** The step closes this client: in the `register` that holds it, or in a `cancel`. */
  predicate ClosesClient(s: State, step: Step, c: Client)
    requires Enabled(s, step)
  {
    match step
    case CloseOwn(w) => s.workers[w].client == c
    case CloseOne(_, d) => d == c
    case _ => false
  }

  /** Step `i` of the run closes the client. */
  ghost predicate ClosesAt(s: State, steps: seq<Step>, i: nat, c: Client) {
    && i < |steps| && AllowedRun(s, steps[..i]) && Enabled(After(s, steps[..i]), steps[i])
    && ClosesClient(After(s, steps[..i]), steps[i], c)
  }

  lemma ClosesLater(s: State, steps: seq<Step>, i: nat, c: Client)
    requires AllowedRun(s, steps) && |steps| > 0
    ensures ClosesAt(s, steps, i + 1, c) <==> ClosesAt(Next(s, steps[0]), steps[1..], i, c)
  {
    if i + 1 < |steps| {
      assert steps[..i + 1][1..] == steps[1..][..i] && steps[..i + 1][0] == steps[0];
    }
  }

  /** A client ends up closed exactly when a step of the run closed it. */
  lemma {:induction false} ClosedBySteps(s: State, steps: seq<Step>, c: Client)
    requires AllowedRun(s, steps)
    ensures c in After(s, steps).closed <==> c in s.closed || exists i: nat :: ClosesAt(s, steps, i, c)
    decreases |steps|
  {
    if |steps| == 0 {
    } else {
      var t, rest := Next(s, steps[0]), steps[1..];
      ClosedBySteps(t, rest, c);
      assert steps[..0] == [] && (ClosesAt(s, steps, 0, c) <==> ClosesClient(s, steps[0], c));
      assert c in t.closed <==> c in s.closed || ClosesClient(s, steps[0], c);
      if i: nat :| ClosesAt(s, steps, i, c) && i > 0 {
        ClosesLater(s, steps, i - 1, c);
      }
      if i: nat :| ClosesAt(t, rest, i, c) {
        ClosesLater(s, steps, i, c);
      }
    }
  }
}
