/** The steps of a host that nothing outside has to give: they end, and where they end
    nobody waits. */
module Liveness {
  import opened Bytes
  import opened Hosts

  /** A thread with no more steps of its own. */
  predicate Settled(p: Thread)
  {
    match p
    case Enable(_, at) => at.Answered?
    case Close(at) => at.Closed?
    case Serve(at) => at.Denied? || at.Returned?
    case Work(at) => at.Gone?
  }

  /** Settled, or an accept loop that waits for its listener. */
  predicate Resting(p: Thread) { Settled(p) || p == Serve(Accepting) }

  /** A call from outside, a connection, or the end of the listener. */
  predicate FromOutside(a: Action) { a.Begin? || a.Accept? || a.Fail? }

  ghost predicate CanMove(s: State) { exists a: Action :: !FromOutside(a) && Step(s, a).Some? }

  ghost predicate AllRest(s: State) { forall t :: t in s.threads ==> Resting(s.threads[t]) }

  // ---- whoever waits, waits for one that can go on ----

  lemma {:induction false} CanGo(s: State, a: Action)
    requires !FromOutside(a) && Effect(s, a).Some?
    ensures CanMove(s)
  {
    assert Step(s, a).Some?;
  }

  lemma {:induction false} SpareName(m: map<nat, Thread>) returns (t: nat)
    ensures t !in m
  {
    t := 0;
    ghost var left := m.Keys;
    while t in m
      invariant forall u :: u in m && u !in left ==> u < t
      invariant forall u :: u in left ==> u in m && u >= t
      decreases left
    {
      left := left - {t};
      t := t + 1;
    }
  }

  /** Who holds the lock, or is closing, waits for nobody. */
  lemma {:induction false} LockHolderMoves(s: State, t: nat)
    requires Core(s) && t in s.threads && HasLock(s.threads[t])
    ensures CanMove(s)
  {
    CanGo(s, Go(t));
  }

  lemma {:induction false} CloserMoves(s: State, t: nat, at: CloseAt)
    requires Core(s) && t in s.threads && CloseAtOf(s.threads[t]) == Some(at) && at != Closed
    ensures CanMove(s)
  {
    if at.Entering? && s.once.Busy? {
      assert InOnce(s.threads[s.once.owner]);
      CanGo(s, Go(s.once.owner));
    } else {
      CanGo(s, Go(t));
    }
  }

  lemma {:induction false} WorkerMoves(s: State, t: nat)
    requires Core(s) && s.lock.None? && Works(s, t) && !s.threads[t].wat.Gone?
    ensures CanMove(s)
  {
    assert t in Live(s.threads);
    assert HasSlot(s.threads[t]) ==> t in Holders(s.threads);
    CanGo(s, Go(t));
  }

  lemma {:induction false} LoopCanMove(s: State, t: nat, at: ServeAt)
    requires Core(s) && s.lock.None? && Hosts.At(s, t, Serve(at)) && !Resting(s.threads[t]) && !at.Closing? && !at.Draining?
    ensures CanMove(s)
  {
    assert !HasLock(s.threads[t]);
    if at.Spawning? {
      var child := SpareName(s.threads);
      CanGo(s, Spawn(t, child));
    } else {
      CanGo(s, Go(t));
    }
  }

  lemma {:induction false} DrainCanMove(s: State, t: nat, failed: bool)
    requires Core(s) && s.lock.None? && Hosts.At(s, t, Serve(Draining(failed)))
    ensures CanMove(s)
  {
    if s.workers > 0 {
      var u :| u in Live(s.threads);
      assert LetIn(s.threads[t]);
      WorkerMoves(s, u);
    } else {
      CanGo(s, Go(t));
    }
  }

  lemma {:induction false} ThreadCanMove(s: State, t: nat)
    requires Core(s) && t in s.threads && !Resting(s.threads[t])
    ensures CanMove(s)
  {
    if s.lock.Some? {
      LockHolderMoves(s, s.lock.value);
    } else {
      match s.threads[t] {
        case Enable(x, at) => CanGo(s, Go(t));
        case Close(at) => CloserMoves(s, t, at);
        case Work(at) => WorkerMoves(s, t);
        case Serve(at) =>
          if at.Draining? {
            DrainCanMove(s, t, at.failed);
          } else if at.Closing? && !at.at.Closed? {
            CloserMoves(s, t, at.at);
          } else if at.Closing? {
            CanGo(s, Go(t));
          } else {
            LoopCanMove(s, t, at);
          }
      }
    }
  }

  lemma {:induction false} RestersStay(s: State, a: Action)
    requires AllRest(s) && !FromOutside(a)
    ensures Step(s, a).None?
  {
    if a.Go? && a.t in s.threads {
      assert Resting(s.threads[a.t]);
    }
  }

  /** In every reachable state: without anything from outside a step can be taken
      exactly when some thread is neither through nor at the listener. Closes that wait
      for each other, the drain, the slots and the lock never block the host. */
  lemma {:induction false} HostNeverBlocks(hooked: bool, actions: seq<Action>)
    requires Run(Initial(hooked), actions).Some?
    ensures var s := Run(Initial(hooked), actions).value; CanMove(s) <==> !AllRest(s)
  {
    InitialInv(hooked);
    RunKeepsInv(Initial(hooked), actions);
    var s := Run(Initial(hooked), actions).value;
    if AllRest(s) {
      forall a: Action | !FromOutside(a) ensures Step(s, a).None? {
        RestersStay(s, a);
      }
    } else {
      var t :| t in s.threads && !Resting(s.threads[t]);
      ThreadCanMove(s, t);
    }
  }

  // ---- and the steps come to an end ----

  function CloseLeft(at: CloseAt): nat
  {
    match at case Entering => 4 case Cancelling => 3 case Shutting => 2 case Leaving => 1 case Closed => 0
  }

  /** More than the steps a loop takes from here back to its listener, or to its end,
      with those of the worker it starts. */
  function LoopLeft(at: ServeAt): nat
  {
    match at
    case Requesting => 11
    case Claiming => 10
    case Starting => 9
    case Denying => 1
    case Denied => 0
    case Accepting => 8
    case Offering => 18
    case Adding => 17
    case Spawning => 16
    case Closing(c, _) => 3 + CloseLeft(c)
    case Stopping(_) => 2
    case Draining(_) => 1
    case Returned(_) => 0
  }

  function WorkLeft(at: WorkAt): nat
  {
    match at
    case Receiving => 7
    case Waiting => 6
    case Reading => 5
    case Unlocking(_) => 4
    case Calling(_) => 3
    case Releasing => 2
    case Departing => 1
    case Gone => 0
  }

  function StepsLeft(p: Thread): nat
  {
    match p
    case Enable(_, at) =>
      (match at case Asking => 4 case Checking => 3 case Writing => 2 case Answering(_) => 1 case Answered(_) => 0)
    case Close(at) => CloseLeft(at)
    case Serve(at) => LoopLeft(at)
    case Work(at) => WorkLeft(at)
  }

  ghost function Total(m: map<nat, Thread>): nat
  {
    if m == map[] then 0 else var t :| t in m; StepsLeft(m[t]) + Total(m - {t})
  }

  lemma {:induction false} TotalWithout(m: map<nat, Thread>, t: nat)
    requires t in m
    ensures Total(m) == StepsLeft(m[t]) + Total(m - {t})
    decreases |m|
  {
    var u :| u in m && Total(m) == StepsLeft(m[u]) + Total(m - {u});
    if u != t {
      TotalWithout(m - {u}, t);
      TotalWithout(m - {t}, u);
      assert m - {u} - {t} == m - {t} - {u};
    }
  }

  lemma {:induction false} TotalPut(m: map<nat, Thread>, t: nat, q: Thread)
    ensures Total(m[t := q]) + (if t in m then StepsLeft(m[t]) else 0) == Total(m) + StepsLeft(q)
  {
    var n := m[t := q];
    TotalWithout(n, t);
    if t in m {
      TotalWithout(m, t);
      assert n - {t} == m - {t};
    } else {
      assert n - {t} == m;
    }
  }

  /** u is s with thread t nearer its end than p. */
  predicate Falls(s: State, t: nat, p: Thread, u: State)
  {
    t in u.threads && u.threads == s.threads[t := u.threads[t]] && StepsLeft(u.threads[t]) < StepsLeft(p)
  }

  lemma {:induction false} EnableFalls(s: State, t: nat, x: Setting, at: EnableAt)
    requires EnableStep(s, t, x, at).Some?
    ensures Falls(s, t, Enable(x, at), EnableStep(s, t, x, at).value)
  {
  }

  lemma {:induction false} CloseFalls(s: State, t: nat, at: CloseAt)
    requires CloseStep(s, t, at).Some?
    ensures var (u, d) := CloseStep(s, t, at).value; u.threads == s.threads && CloseLeft(d) < CloseLeft(at)
  {
  }

  lemma {:induction false} LoopFalls(s: State, t: nat, at: ServeAt)
    requires ServeStep(s, t, at).Some?
    ensures Falls(s, t, Serve(at), ServeStep(s, t, at).value)
  {
    if at.Closing? && !at.at.Closed? {
      CloseFalls(s, t, at.at);
    }
  }

  lemma {:induction false} WorkFalls(s: State, t: nat, at: WorkAt)
    requires WorkStep(s, t, at).Some?
    ensures Falls(s, t, Work(at), WorkStep(s, t, at).value)
  {
  }

  lemma {:induction false} GoFalls(s: State, t: nat, p: Thread)
    requires GoStep(s, t, p).Some?
    ensures Falls(s, t, p, GoStep(s, t, p).value)
  {
    match p {
      case Enable(x, at) => EnableFalls(s, t, x, at);
      case Close(at) => CloseFalls(s, t, at);
      case Serve(at) => LoopFalls(s, t, at);
      case Work(at) => WorkFalls(s, t, at);
    }
  }

  /** What a call or a connection adds. */
  function Gain(a: Action): nat { if a.Begin? then 12 else if a.Accept? then 11 else 0 }

  /** Every step uses up one of the steps left; only calls and connections add any. */
  lemma {:induction false} StepFalls(s: State, a: Action)
    requires Step(s, a).Some?
    ensures Total(Step(s, a).value.threads) < Total(s.threads) + Gain(a)
  {
    var m := s.threads;
    match a {
      case Begin(t, call) => TotalPut(m, t, First(call));
      case Go(t) =>
        GoFalls(s, t, m[t]);
        TotalPut(m, t, Step(s, a).value.threads[t]);
      case Accept(t) => TotalPut(m, t, Serve(Offering));
      case Fail(t, ended) => TotalPut(m, t, Serve(Closing(Entering, !(ended || s.cancelled))));
      case Spawn(t, child) =>
        TotalPut(m, t, Serve(Accepting));
        TotalPut(m[t := Serve(Accepting)], child, Work(Receiving));
      case Ask(t) => TotalPut(m, t, Work(Waiting));
    }
  }

  function Gains(actions: seq<Action>): nat
  {
    if actions == [] then 0 else Gain(actions[0]) + Gains(actions[1..])
  }

  /** Over all runs: no more steps than the threads had left, twelve for every call from
      outside and eleven for every connection. */
  lemma {:induction false} RunsAreBounded(s: State, actions: seq<Action>)
    requires Run(s, actions).Some?
    ensures |actions| + Total(Run(s, actions).value.threads) <= Total(s.threads) + Gains(actions)
    decreases |actions|
  {
    if actions != [] {
      StepFalls(s, actions[0]);
      RunsAreBounded(Step(s, actions[0]).value, actions[1..]);
    }
  }

  // ---- where they end ----

  /** Nothing but a call from outside or a connection can happen. */
  ghost predicate AtEnd(s: State) { forall a: Action :: !a.Begin? && !a.Accept? ==> Step(s, a).None? }

  ghost predicate AllSettled(s: State) { forall t :: t in s.threads ==> Settled(s.threads[t]) }

  lemma {:induction false} UnsettledGoesOn(s: State, t: nat)
    requires Core(s) && t in s.threads && !Settled(s.threads[t])
    ensures !AtEnd(s)
  {
    if s.threads[t] == Serve(Accepting) {
      assert Step(s, Fail(t, true)).Some?;
    } else {
      ThreadCanMove(s, t);
    }
  }

  lemma {:induction false} SettledIsEnd(s: State)
    requires AllSettled(s)
    ensures AtEnd(s)
  {
    forall a: Action | !a.Begin? && !a.Accept? ensures Step(s, a).None? {
      if a.t in s.threads {
        assert Settled(s.threads[a.t]);
      }
    }
  }

  lemma {:induction false} NothingIsHeld(s: State)
    requires Core(s) && AllSettled(s)
    ensures s.lock.None? && s.slots == 0 && s.workers == 0
  {
    assert Holders(s.threads) == {};
    assert Live(s.threads) == {};
  }

  lemma {:induction false} ServeIsFinished(s: State)
    requires Inv(s) && AllSettled(s) && s.serving
    ensures Shut in s.log && Finished in s.log
  {
    var p := s.threads[s.server.value];
    assert LetIn(p) && Settled(p) && PastClose(p);
    assert Happened(s, Shut) && Happened(s, Finished);
  }

  /** In every reachable state: nothing but a call or a connection can happen exactly
      when every thread is through; and then nobody holds the lock or a slot, no worker
      counts, whoever was admitted has left, and a host that served is shut and its Serve
      has returned. A run without calls and connections gets there: it is bounded. */
  lemma {:induction false} HostComesToRest(hooked: bool, actions: seq<Action>)
    requires Run(Initial(hooked), actions).Some?
    ensures var s := Run(Initial(hooked), actions).value;
            && (AtEnd(s) <==> AllSettled(s))
            && (AtEnd(s) ==>
                  && s.lock.None? && s.slots == 0 && s.workers == 0
                  && (s.serving ==> Shut in s.log && Finished in s.log)
                  && forall t :: Admitted(t) in s.log ==> Left(t) in s.log)
  {
    InitialInv(hooked);
    RunKeepsInv(Initial(hooked), actions);
    var s := Run(Initial(hooked), actions).value;
    if AllSettled(s) {
      SettledIsEnd(s);
      NothingIsHeld(s);
      if s.serving {
        ServeIsFinished(s);
      }
      forall t | Admitted(t) in s.log ensures Left(t) in s.log {
        assert Happened(s, Admitted(t)) && Settled(s.threads[t]);
        assert Happened(s, Left(t));
      }
    } else {
      var t :| t in s.threads && !Settled(s.threads[t]);
      UnsettledGoesOn(s, t);
    }
  }
}
