/** What becomes of each connection, each setting and each failure of the listener: the
    choices a host makes, over all its reachable states. */
module Admissions {
  import opened Bytes
  import opened Hosts
  import Liveness

  // ---- connections ----

  lemma {:induction false} ReachedIsOffering(s: State, t: nat)
    requires Inv(s) && Hosts.At(s, t, Serve(Offering))
    ensures s.slots == |Unreleased(s.log)| <= SLOTS
  {
    SlotsAreUnreleased(s);
    assert LetIn(s.threads[t]);
  }

  /** The host as it was with one more connection let in. */
  predicate LetsIn(s: State, t: nat, child: nat, u: State)
  {
    && u.log == s.log + [Admitted(child)] && u.slots == s.slots + 1 && u.workers == s.workers + 1
    && u.threads == s.threads[t := Serve(Accepting)][child := Work(Receiving)]
    && u.config == s.config && u.lock == s.lock && u.once == s.once && u.cancelled == s.cancelled && u.server == s.server
    && u.serving == s.serving && u.hooked == s.hooked
  }

  lemma {:induction false} SlotIsTaken(s: State, t: nat)
    requires Hosts.At(s, t, Serve(Offering)) && s.slots < SLOTS
    ensures Step(s, Go(t)) == Some(Put(s.(slots := s.slots + 1), t, Serve(Adding)))
  {
  }

  lemma {:induction false} CountIsTaken(s: State, t: nat)
    requires Hosts.At(s, t, Serve(Adding))
    ensures Step(s, Go(t)) == Some(Put(s.(workers := s.workers + 1), t, Serve(Spawning)))
  {
  }

  lemma {:induction false} WorkerStarts(s: State, t: nat, child: nat)
    requires Hosts.At(s, t, Serve(Spawning)) && child !in s.threads
    ensures Step(s, Spawn(t, child))
            == Some(Put(Put(s, t, Serve(Accepting)), child, Work(Receiving)).(log := s.log + [Admitted(child)]))
  {
  }

  lemma {:induction false} ThreeSteps(s: State, a: Action, b: Action, c: Action, s1: State, s2: State, s3: State)
    requires Step(s, a) == Some(s1) && Step(s1, b) == Some(s2) && Step(s2, c) == Some(s3)
    ensures Run(s, [a] + [b] + [c]) == Some(s3)
  {
    RunOne(s, [], a, s1);
    assert [] + [a] == [a];
    RunOne(s, [a], b, s2);
    RunOne(s, [a] + [b], c, s3);
  }

  lemma {:induction false} OfferIsTaken(s: State, t: nat, child: nat) returns (actions: seq<Action>)
    requires Hosts.At(s, t, Serve(Offering)) && s.slots < SLOTS && child !in s.threads
    ensures actions == [Go(t)] + [Go(t)] + [Spawn(t, child)]
    ensures Run(s, actions).Some? && LetsIn(s, t, child, Run(s, actions).value)
  {
    var s1 := Put(s.(slots := s.slots + 1), t, Serve(Adding));
    var s2 := Put(s1.(workers := s1.workers + 1), t, Serve(Spawning));
    var s3 := Put(Put(s2, t, Serve(Accepting)), child, Work(Receiving)).(log := s2.log + [Admitted(child)]);
    SlotIsTaken(s, t);
    CountIsTaken(s1, t);
    WorkerStarts(s2, t, child);
    actions := [Go(t)] + [Go(t)] + [Spawn(t, child)];
    ThreeSteps(s, Go(t), Go(t), Spawn(t, child), s1, s2, s3);
    assert s3.threads == s.threads[t := Serve(Accepting)][child := Work(Receiving)];
  }

  lemma {:induction false} OfferIsDropped(s: State, t: nat)
    requires Hosts.At(s, t, Serve(Offering)) && s.slots >= SLOTS
    ensures Step(s, Go(t)) == Some(Put(s, t, Serve(Accepting)).(log := s.log + [Dropped]))
  {
  }

  /** In every reachable state with a connection in hand: with fewer than 32 admitted and
      not released it is admitted under every unused name, with 32 it is hung up on, and
      there are never more. */
  lemma {:induction false} OfferIsDecided(hooked: bool, before: seq<Action>, t: nat, child: nat)
    requires Run(Initial(hooked), before).Some?
    requires var s := Run(Initial(hooked), before).value; Hosts.At(s, t, Serve(Offering)) && child !in s.threads
    ensures var s := Run(Initial(hooked), before).value;
            var out := |Unreleased(s.log)|;
            var taken := Run(s, [Go(t)] + [Go(t)] + [Spawn(t, child)]);
            && out <= 32
            && (out < 32 ==> taken.Some? && LetsIn(s, t, child, taken.value))
            && (out == 32 ==> Step(s, Go(t)) == Some(Put(s, t, Serve(Accepting)).(log := s.log + [Dropped])))
  {
    InitialInv(hooked);
    RunKeepsInv(Initial(hooked), before);
    var s := Run(Initial(hooked), before).value;
    ReachedIsOffering(s, t);
    if s.slots < SLOTS {
      var _ := OfferIsTaken(s, t, child);
    } else {
      OfferIsDropped(s, t);
    }
  }

  // ---- thirty-two connections ----

  /** One Serve at its listener, with n connections let in and none yet gone. */
  ghost predicate Full(s: State, n: nat)
  {
    && Hosts.At(s, 0, Serve(Accepting)) && s.slots == n && (forall t: nat :: t in s.threads <==> t <= n)
  }

  lemma {:induction false} RunJoins(s: State, a: seq<Action>, b: seq<Action>)
    requires Run(s, a).Some?
    ensures Run(s, a + b) == Run(Run(s, a).value, b)
    decreases |a|
  {
    if a == [] {
      assert a + b == b;
    } else {
      assert (a + b)[0] == a[0] && (a + b)[1..] == a[1..] + b;
      RunJoins(Step(s, a[0]).value, a[1..], b);
    }
  }

  lemma {:induction false} ServeStarts(hooked: bool) returns (actions: seq<Action>)
    ensures Run(Initial(hooked), actions).Some? && Full(Run(Initial(hooked), actions).value, 0)
  {
    var s0 := Initial(hooked);
    var s1 := Put(s0, 0, Serve(Requesting));
    var s2 := Put(s1.(lock := Some(0)), 0, Serve(Claiming));
    var s3 := Put(s2.(serving := true, server := Some(0)), 0, Serve(Starting));
    var s4 := Put(s3.(lock := None), 0, Serve(Accepting));
    RunOne(s0, [], Begin(0, ToServe), s1);
    actions := [Begin(0, ToServe)];
    assert [] + actions == actions;
    RunOne(s0, actions, Go(0), s2);
    actions := actions + [Go(0)];
    RunOne(s0, actions, Go(0), s3);
    actions := actions + [Go(0)];
    RunOne(s0, actions, Go(0), s4);
    actions := actions + [Go(0)];
  }

  lemma {:induction false} OneMore(s: State, n: nat) returns (actions: seq<Action>)
    requires Full(s, n) && n < SLOTS
    ensures Run(s, actions).Some? && Full(Run(s, actions).value, n + 1)
  {
    var u := Put(s, 0, Serve(Offering));
    RunOne(s, [], Accept(0), u);
    assert [] + [Accept(0)] == [Accept(0)];
    var more := OfferIsTaken(u, 0, n + 1);
    RunJoins(s, [Accept(0)], more);
    actions := [Accept(0)] + more;
  }

  /** From the start a host lets in any number of connections up to 32 at once. */
  lemma {:induction false} AllAreAdmitted(hooked: bool, n: nat) returns (actions: seq<Action>)
    requires n <= 32
    ensures Run(Initial(hooked), actions).Some? && Full(Run(Initial(hooked), actions).value, n)
  {
    if n == 0 {
      actions := ServeStarts(hooked);
    } else {
      actions := AllAreAdmitted(hooked, n - 1);
      var more := OneMore(Run(Initial(hooked), actions).value, n - 1);
      RunJoins(Initial(hooked), actions, more);
      actions := actions + more;
    }
  }

  // ---- settings ----

  /** In every state an Enable that stands before its check and goes on alone sets its
      value exactly when the host neither serves nor is cancelled and the value is one;
      else it is refused and changes nothing. */
  lemma {:induction false} EnableIsDecided(s: State, t: nat, x: Setting)
    requires Hosts.At(s, t, Enable(x, Checking))
    ensures var ok := !s.serving && !s.cancelled && x.value.Some?;
            var r := Run(s, if ok then [Go(t)] + [Go(t)] + [Go(t)] else [Go(t)] + [Go(t)]);
            && r.Some? && Hosts.At(r.value, t, Enable(x, Answered(ok))) && r.value.lock.None?
            && (x.Policy? ==> r.value.config == if ok then Config(x.value, s.config.applier) else s.config)
            && (x.Applier? ==> r.value.config == if ok then Config(s.config.policy, x.value) else s.config)
  {
    var ok := !s.serving && !s.cancelled && x.value.Some?;
    var go := [Go(t)];
    assert [] + go == go;
    if ok {
      var s1 := Put(s, t, Enable(x, Writing));
      var s2 := Put(s1.(config := Set(s1.config, x)), t, Enable(x, Answering(true)));
      RunOne(s, [], Go(t), s1);
      RunOne(s, go, Go(t), s2);
      RunOne(s, go + go, Go(t), Put(s2.(lock := None), t, Enable(x, Answered(true))));
    } else {
      var s1 := Put(s, t, Enable(x, Answering(false)));
      RunOne(s, [], Go(t), s1);
      RunOne(s, go, Go(t), Put(s1.(lock := None), t, Enable(x, Answered(false))));
    }
  }

  // ---- failures ----

  /** Whether a Serve past its listener reports an error. */
  function Reports(s: State, t: nat): Option<bool>
  {
    if t in s.threads && s.threads[t].Serve? then
      (match s.threads[t].sat
       case Closing(_, failed) => Some(failed)
       case Stopping(failed) => Some(failed)
       case Draining(failed) => Some(failed)
       case Returned(failed) => Some(failed)
       case _ => None)
    else None
  }

  /** The i-th action ends thread t's listener, with an error that is reported or not. */
  predicate Ends(s: State, actions: seq<Action>, i: nat, t: nat, failed: bool)
    requires i < |actions|
  {
    match actions[i]
    case Fail(u, ended) =>
      u == t && Run(s, actions[..i]).Some? && failed == (!ended && !Run(s, actions[..i]).value.cancelled)
    case _ => false
  }

  lemma {:induction false} StepReports(s: State, a: Action, t: nat, failed: bool)
    requires Step(s, a).Some? && Reports(Step(s, a).value, t) == Some(failed)
    ensures Reports(s, t) == Some(failed) || (a.Fail? && a.t == t && failed == (!a.ended && !s.cancelled))
  {
    if a.Go? {
      GoReports(s, a.t, t);
    }
  }

  lemma {:induction false} LoopReports(s: State, t: nat, at: ServeAt)
    requires Hosts.At(s, t, Serve(at)) && ServeStep(s, t, at).Some?
    ensures Reports(ServeStep(s, t, at).value, t) == Reports(s, t)
  {
  }

  /** No other kind of thread becomes a Serve. */
  lemma {:induction false} OthersReportNothing(s: State, t: nat, p: Thread)
    requires !p.Serve? && GoStep(s, t, p).Some? && t in GoStep(s, t, p).value.threads
    ensures !GoStep(s, t, p).value.threads[t].Serve?
  {
  }

  lemma {:induction false} GoReports(s: State, x: nat, t: nat)
    requires Effect(s, Go(x)).Some?
    ensures Reports(Effect(s, Go(x)).value, t) == Reports(s, t)
  {
    var p := s.threads[x];
    Liveness.GoFalls(s, x, p);
    if x == t {
      if p.Serve? {
        LoopReports(s, t, p.sat);
      } else {
        OthersReportNothing(s, t, p);
      }
    }
  }

  /** Over all runs: what a Serve reports is whether its listener failed of itself: not
      because the caller's context had ended, and not after a close had begun. */
  lemma {:induction false} FailureIsReported(s: State, actions: seq<Action>, t: nat, failed: bool)
    requires Run(s, actions).Some? && Reports(s, t).None? && Reports(Run(s, actions).value, t) == Some(failed)
    ensures exists i: nat :: i < |actions| && Ends(s, actions, i, t, failed)
    decreases |actions|
  {
    var a, u := actions[0], Step(s, actions[0]).value;
    if Reports(u, t).Some? {
      StepReports(s, a, t, Reports(u, t).value);
      ReportStays(u, actions[1..], t);
      assert actions[..0] == [];
      assert Ends(s, actions, 0, t, failed);
    } else {
      FailureIsReported(u, actions[1..], t, failed);
      var i: nat :| i < |actions[1..]| && Ends(u, actions[1..], i, t, failed);
      assert actions[..i + 1][0] == a && actions[..i + 1][1..] == actions[1..][..i];
      assert Ends(s, actions, i + 1, t, failed);
    }
  }

  lemma {:induction false} ReportStays(s: State, actions: seq<Action>, t: nat)
    requires Run(s, actions).Some? && Reports(s, t).Some?
    ensures Reports(Run(s, actions).value, t) == Reports(s, t)
    decreases |actions|
  {
    if actions != [] {
      StepKeepsReport(s, actions[0], t);
      ReportStays(Step(s, actions[0]).value, actions[1..], t);
    }
  }

  lemma {:induction false} StepKeepsReport(s: State, a: Action, t: nat)
    requires Step(s, a).Some? && Reports(s, t).Some?
    ensures Reports(Step(s, a).value, t) == Reports(s, t)
  {
    if a.Go? {
      GoReports(s, a.t, t);
    }
  }

  // ---- what a close does first ----

  predicate NearShut(p: Thread)
  {
    match CloseAtOf(p) case Some(at) => at.Shutting? || at.Leaving? case None => false
  }

  /** Whoever has shut the listener, or is about to, has cancelled before. */
  ghost predicate CancelsFirst(s: State)
  {
    && (forall t :: t in s.threads && NearShut(s.threads[t]) ==> s.cancelled)
    && (s.once == Done ==> s.cancelled)
  }

  /** What a thread's step does for it. */
  predicate KeepsCancelling(s: State, t: nat, p: Thread, u: State)
  {
    && (s.cancelled ==> u.cancelled)
    && (NearShut(p) ==> s.cancelled)
    && (s.once == Done ==> s.cancelled)
    ==> t in u.threads && (NearShut(u.threads[t]) ==> u.cancelled) && (u.once == Done ==> u.cancelled) && (s.cancelled ==> u.cancelled)
  }

  lemma {:induction false} EnableCancels(s: State, t: nat, x: Setting, at: EnableAt)
    requires EnableStep(s, t, x, at).Some?
    ensures KeepsCancelling(s, t, Enable(x, at), EnableStep(s, t, x, at).value) && (s.cancelled ==> EnableStep(s, t, x, at).value.cancelled)
  {
  }

  lemma {:induction false} CloseCancels(s: State, t: nat, at: CloseAt)
    requires CloseStep(s, t, at).Some?
    ensures var u := Put(CloseStep(s, t, at).value.0, t, Close(CloseStep(s, t, at).value.1));
            KeepsCancelling(s, t, Close(at), u) && (s.cancelled ==> u.cancelled)
  {
  }

  lemma {:induction false} LoopCancels(s: State, t: nat, at: ServeAt)
    requires ServeStep(s, t, at).Some?
    ensures KeepsCancelling(s, t, Serve(at), ServeStep(s, t, at).value) && (s.cancelled ==> ServeStep(s, t, at).value.cancelled)
  {
  }

  lemma {:induction false} WorkCancels(s: State, t: nat, at: WorkAt)
    requires WorkStep(s, t, at).Some?
    ensures KeepsCancelling(s, t, Work(at), WorkStep(s, t, at).value) && (s.cancelled ==> WorkStep(s, t, at).value.cancelled)
  {
  }

  lemma {:induction false} GoCancels(s: State, t: nat)
    requires Effect(s, Go(t)).Some? && CancelsFirst(s)
    ensures CancelsFirst(Effect(s, Go(t)).value)
  {
    var p := s.threads[t];
    match p {
      case Enable(x, at) => EnableCancels(s, t, x, at);
      case Close(at) => CloseCancels(s, t, at);
      case Serve(at) => LoopCancels(s, t, at);
      case Work(at) => WorkCancels(s, t, at);
    }
    Liveness.GoFalls(s, t, p);
  }

  lemma {:induction false} StepCancels(s: State, a: Action)
    requires Step(s, a).Some? && CancelsFirst(s)
    ensures CancelsFirst(Step(s, a).value)
  {
    if a.Go? {
      GoCancels(s, a.t);
    }
  }

  lemma {:induction false} RunCancels(s: State, actions: seq<Action>)
    requires Run(s, actions).Some? && CancelsFirst(s)
    ensures CancelsFirst(Run(s, actions).value)
    decreases |actions|
  {
    if actions != [] {
      StepCancels(s, actions[0]);
      RunCancels(Step(s, actions[0]).value, actions[1..]);
    }
  }

  /** In every reachable state the host was cancelled before its listener was shut, so
      what the listener then gives is not taken for a failure. */
  lemma {:induction false} ShutIsCancelled(hooked: bool, actions: seq<Action>, t: nat, ended: bool)
    requires Run(Initial(hooked), actions).Some?
    requires var s := Run(Initial(hooked), actions).value; Shut in s.log && Step(s, Fail(t, ended)).Some?
    ensures var s := Run(Initial(hooked), actions).value;
            s.cancelled && Reports(Step(s, Fail(t, ended)).value, t) == Some(false)
  {
    InitialInv(hooked);
    RunKeepsInv(Initial(hooked), actions);
    RunCancels(Initial(hooked), actions);
    var s := Run(Initial(hooked), actions).value;
    assert Happened(s, Shut);
  }
}
