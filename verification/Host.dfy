/** The life of a service host: configuration, the accept loop, its workers and the
    one close, as the interleaved steps of any number of threads. */
module Hosts {
  import opened Bytes

  const SLOTS: nat := 32

  /** A policy or credential applier given to Enable; none is a nil one. */
  datatype Setting = Policy(value: Option<nat>) | Applier(value: Option<nat>)

  datatype Config = Config(policy: Option<nat>, applier: Option<nat>)

  // ---- where a thread is: each name is the step it takes next ----

  datatype EnableAt = Asking | Checking | Writing | Answering(ok: bool) | Answered(ok: bool)

  datatype CloseAt = Entering | Cancelling | Shutting | Leaving | Closed

  /** Offering has a connection in hand, Adding a slot as well, Spawning is counted
      in the wait group too. */
  datatype ServeAt =
    | Requesting | Claiming | Starting | Denying | Denied
    | Accepting | Offering | Adding | Spawning
    | Closing(at: CloseAt, failed: bool) | Stopping(failed: bool) | Draining(failed: bool) | Returned(failed: bool)

  datatype WorkAt =
    | Receiving | Waiting | Reading | Unlocking(seen: Config) | Calling(seen: Config)
    | Releasing | Departing | Gone

  datatype Thread =
    | Enable(setting: Setting, eat: EnableAt)
    | Close(cat: CloseAt)
    | Serve(sat: ServeAt)
    | Work(wat: WorkAt)

  datatype Once = Unused | Busy(owner: nat) | Done

  /** What an observer of the host sees happen; Dropped is a connection hung up on
      before it has a worker. */
  datatype Event =
    | Shut | Stopped | Finished | Dropped
    | Admitted(who: nat) | Hung(who: nat) | Freed(who: nat) | Left(who: nat)

  /** The host's fields, its threads, and two things only told about it: which
      Serve was let in, and what has happened so far. */
  datatype State = State(
    hooked: bool,
    lock: Option<nat>,
    serving: bool,
    config: Config,
    cancelled: bool,
    once: Once,
    slots: nat,
    workers: nat,
    threads: map<nat, Thread>,
    server: Option<nat>,
    log: seq<Event>)

  function Initial(hooked: bool): State
  {
    State(hooked, None, false, Config(None, None), false, Unused, 0, 0, map[], None, [])
  }

  // ---- steps ----

  datatype Call = ToEnable(setting: Setting) | ToClose | ToServe

  /** Begin is a call from outside; Accept and Fail are what the listener gives the
      accept loop; Ask is a worker that reads the configuration. */
  datatype Action =
    | Begin(t: nat, call: Call)
    | Go(t: nat)
    | Accept(t: nat)
    | Fail(t: nat, ended: bool)
    | Spawn(t: nat, child: nat)
    | Ask(t: nat)

  function Put(s: State, t: nat, p: Thread): State { s.(threads := s.threads[t := p]) }

  function First(call: Call): Thread
  {
    match call
    case ToEnable(x) => Enable(x, Asking)
    case ToClose => Close(Entering)
    case ToServe => Serve(Requesting)
  }

  function Set(c: Config, x: Setting): Config
  {
    match x case Policy(v) => c.(policy := v) case Applier(v) => c.(applier := v)
  }

  function TakeLock(s: State, t: nat, p: Thread): Option<State>
  {
    if s.lock.None? then Some(Put(s.(lock := Some(t)), t, p)) else None
  }

  function EnableStep(s: State, t: nat, x: Setting, at: EnableAt): Option<State>
  {
    match at
    case Asking => TakeLock(s, t, Enable(x, Checking))
    case Checking => Some(Put(s, t, Enable(x, if s.serving || s.cancelled || x.value.None? then Answering(false) else Writing)))
    case Writing => Some(Put(s.(config := Set(s.config, x)), t, Enable(x, Answering(true))))
    case Answering(ok) => Some(Put(s.(lock := None), t, Enable(x, Answered(ok))))
    case Answered(_) => None
  }

  /** The close-once: the first in cancels and shuts the listener, and whoever comes
      meanwhile waits for it. */
  function CloseStep(s: State, t: nat, at: CloseAt): Option<(State, CloseAt)>
  {
    match at
    case Entering =>
      (match s.once
       case Unused => Some((s.(once := Busy(t)), Cancelling))
       case Busy(_) => None
       case Done => Some((s, Closed)))
    case Cancelling => Some((s.(cancelled := true), Shutting))
    case Shutting => Some((s, Leaving))
    case Leaving => Some((s.(once := Done), Closed))
    case Closed => None
  }

  function ServeStep(s: State, t: nat, at: ServeAt): Option<State>
  {
    match at
    case Requesting => TakeLock(s, t, Serve(Claiming))
    case Claiming =>
      if s.serving then Some(Put(s, t, Serve(Denying)))
      else Some(Put(s.(serving := true, server := Some(t)), t, Serve(Starting)))
    case Starting => Some(Put(s.(lock := None), t, Serve(Accepting)))
    case Denying => Some(Put(s.(lock := None), t, Serve(Denied)))
    case Offering =>
      if s.slots < SLOTS then Some(Put(s.(slots := s.slots + 1), t, Serve(Adding)))
      else Some(Put(s, t, Serve(Accepting)))
    case Adding => Some(Put(s.(workers := s.workers + 1), t, Serve(Spawning)))
    case Closing(Closed, failed) => Some(Put(s, t, Serve(Stopping(failed))))
    case Closing(c, failed) =>
      (match CloseStep(s, t, c)
       case None => None
       case Some((u, d)) => Some(Put(u, t, Serve(Closing(d, failed)))))
    case Stopping(failed) => Some(Put(s, t, Serve(Draining(failed))))
    case Draining(failed) => if s.workers > 0 then None else Some(Put(s, t, Serve(Returned(failed))))
    case _ => None
  }

  function WorkStep(s: State, t: nat, at: WorkAt): Option<State>
  {
    match at
    case Receiving => Some(Put(s, t, Work(Releasing)))
    case Waiting => TakeLock(s, t, Work(Reading))
    case Reading => Some(Put(s, t, Work(Unlocking(s.config))))
    case Unlocking(c) => Some(Put(s.(lock := None), t, Work(Calling(c))))
    case Calling(_) => Some(Put(s, t, Work(Releasing)))
    case Releasing => if s.slots == 0 then None else Some(Put(s.(slots := s.slots - 1), t, Work(Departing)))
    case Departing => if s.workers == 0 then None else Some(Put(s.(workers := s.workers - 1), t, Work(Gone)))
    case Gone => None
  }

  function GoStep(s: State, t: nat, p: Thread): Option<State>
  {
    match p
    case Enable(x, at) => EnableStep(s, t, x, at)
    case Close(at) =>
      (match CloseStep(s, t, at)
       case None => None
       case Some((u, d)) => Some(Put(u, t, Close(d))))
    case Serve(at) => ServeStep(s, t, at)
    case Work(at) => WorkStep(s, t, at)
  }

  predicate At(s: State, t: nat, p: Thread) { t in s.threads && s.threads[t] == p }

  /** What an action does to the fields and the threads, when it can happen. */
  function Effect(s: State, a: Action): Option<State>
  {
    match a
    case Begin(t, call) => if t in s.threads then None else Some(Put(s, t, First(call)))
    case Go(t) => if t in s.threads then GoStep(s, t, s.threads[t]) else None
    case Accept(t) => if At(s, t, Serve(Accepting)) then Some(Put(s, t, Serve(Offering))) else None
    case Fail(t, ended) =>
      if At(s, t, Serve(Accepting)) then Some(Put(s, t, Serve(Closing(Entering, !(ended || s.cancelled))))) else None
    case Spawn(t, child) =>
      if At(s, t, Serve(Spawning)) && child !in s.threads
      then Some(Put(Put(s, t, Serve(Accepting)), child, Work(Receiving)))
      else None
    case Ask(t) => if At(s, t, Work(Receiving)) then Some(Put(s, t, Work(Waiting))) else None
  }

  /** What a thread's next step makes happen. */
  function Makes(hooked: bool, t: nat, p: Thread): Option<Event>
  {
    match p
    case Enable(_, _) => None
    case Close(at) => if at.Shutting? then Some(Shut) else None
    case Serve(Closing(at, _)) => if at.Shutting? then Some(Shut) else None
    case Serve(at) =>
      if at.Stopping? && hooked then Some(Stopped) else if at.Draining? then Some(Finished) else None
    case Work(at) =>
      if at.Receiving? || at.Calling? then Some(Hung(t))
      else if at.Releasing? then Some(Freed(t))
      else if at.Departing? then Some(Left(t))
      else None
  }

  /** Whether an accept loop that had a connection in hand is back at its listener. */
  predicate Drops(s: State, u: State, t: nat) { At(s, t, Serve(Offering)) && At(u, t, Serve(Accepting)) }

  /** What is seen of an action that leads to u. */
  function Says(s: State, a: Action, u: State): Option<Event>
  {
    match a
    case Go(t) => if Drops(s, u, t) then Some(Dropped) else if t in s.threads then Makes(s.hooked, t, s.threads[t]) else None
    case Spawn(_, child) => Some(Admitted(child))
    case _ => None
  }

  function Noted(log: seq<Event>, e: Option<Event>): seq<Event> { if e.Some? then log + [e.value] else log }

  /** The state after an action, when it can happen. */
  function Step(s: State, a: Action): Option<State>
  {
    match Effect(s, a)
    case None => None
    case Some(u) => Some(u.(log := Noted(s.log, Says(s, a, u))))
  }

  function Run(s: State, actions: seq<Action>): Option<State>
    decreases |actions|
  {
    if actions == [] then Some(s)
    else
      match Step(s, actions[0])
      case None => None
      case Some(u) => Run(u, actions[1..])
  }

  // ---- what holds of every state ----

  predicate HasLock(p: Thread)
  {
    match p
    case Enable(_, at) => at.Checking? || at.Writing? || at.Answering?
    case Close(_) => false
    case Serve(at) => at.Claiming? || at.Starting? || at.Denying?
    case Work(at) => at.Reading? || at.Unlocking?
  }

  /** The Serve that was let in. */
  predicate LetIn(p: Thread)
  {
    p.Serve? && !p.sat.Requesting? && !p.sat.Claiming? && !p.sat.Denying? && !p.sat.Denied?
  }

  function CloseAtOf(p: Thread): Option<CloseAt>
  {
    match p
    case Close(at) => Some(at)
    case Serve(Closing(at, _)) => Some(at)
    case _ => None
  }

  predicate InOnce(p: Thread)
  {
    match CloseAtOf(p) case Some(at) => at.Cancelling? || at.Shutting? || at.Leaving? case None => false
  }

  /** Past a close, its own or another's. */
  predicate PastClose(p: Thread)
  {
    match p
    case Close(at) => at.Closed?
    case Serve(Closing(at, _)) => at.Closed?
    case Serve(at) => at.Stopping? || at.Draining? || at.Returned?
    case _ => false
  }

  predicate HasSlot(p: Thread)
  {
    match p
    case Serve(at) => at.Adding? || at.Spawning?
    case Work(at) => !at.Departing? && !at.Gone?
    case _ => false
  }

  /** Counted in the wait group. */
  predicate Counted(p: Thread)
  {
    match p
    case Serve(at) => at.Spawning?
    case Work(at) => !at.Gone?
    case _ => false
  }

  ghost function Holders(m: map<nat, Thread>): set<nat> { set t | t in m && HasSlot(m[t]) }

  ghost function Live(m: map<nat, Thread>): set<nat> { set t | t in m && Counted(m[t]) }

  ghost predicate LockInv(s: State)
  {
    && (forall t :: t in s.threads ==> (HasLock(s.threads[t]) <==> s.lock == Some(t)))
    && (s.lock.Some? ==> s.lock.value in s.threads)
  }

  ghost predicate ServeInv(s: State)
  {
    && (s.serving <==> s.server.Some?)
    && (s.server.Some? ==> s.server.value in s.threads)
    && (forall t :: t in s.threads ==> (LetIn(s.threads[t]) <==> s.server == Some(t)))
  }

  /** Nothing writes the configuration of a host that serves, and what a worker
      read of it is what it is. */
  predicate ConfigOk(s: State, p: Thread)
  {
    match p
    case Enable(x, at) => at.Writing? ==> !s.serving
    case Work(at) => s.serving && (at.Unlocking? || at.Calling? ==> at.seen == s.config)
    case _ => true
  }

  ghost predicate ConfigInv(s: State) { forall t :: t in s.threads ==> ConfigOk(s, s.threads[t]) }

  predicate IsShut(s: State)
  {
    match s.once
    case Unused => false
    case Busy(t) => t in s.threads && CloseAtOf(s.threads[t]) == Some(Leaving)
    case Done => true
  }

  ghost predicate OnceInv(s: State)
  {
    && (forall t :: t in s.threads ==> (InOnce(s.threads[t]) <==> s.once == Busy(t)))
    && (forall t :: t in s.threads && PastClose(s.threads[t]) ==> s.once == Done)
    && (s.once.Busy? ==> s.once.owner in s.threads)
  }

  ghost predicate CountInv(s: State)
  {
    s.slots == |Holders(s.threads)| <= SLOTS && s.workers == |Live(s.threads)|
  }

  function ServerAt(s: State): Option<ServeAt>
  {
    if s.server.Some? && s.server.value in s.threads && s.threads[s.server.value].Serve?
    then Some(s.threads[s.server.value].sat) else None
  }

  predicate IsStopped(s: State)
  {
    match ServerAt(s) case Some(at) => at.Draining? || at.Returned? case None => false
  }

  predicate IsFinished(s: State)
  {
    match ServerAt(s) case Some(at) => at.Returned? case None => false
  }

  predicate Works(s: State, t: nat) { t in s.threads && s.threads[t].Work? }

  /** Whether an event has happened, by where everything is now. */
  predicate Happened(s: State, e: Event)
  {
    match e
    case Shut => IsShut(s)
    case Stopped => s.hooked && IsStopped(s)
    case Finished => IsFinished(s)
    case Admitted(t) => Works(s, t)
    case Hung(t) => Works(s, t) && var at := s.threads[t].wat; at.Releasing? || at.Departing? || at.Gone?
    case Freed(t) => Works(s, t) && var at := s.threads[t].wat; at.Departing? || at.Gone?
    case Left(t) => Works(s, t) && s.threads[t].wat.Gone?
    case Dropped => false
  }

  /** The log and the state agree, but for refusals, which leave no trace. */
  ghost predicate LogInv(s: State) { forall e: Event :: e.Dropped? || (e in s.log <==> Happened(s, e)) }

  /** The connections let in whose slot has not come back, by the log alone. */
  function Unreleased(log: seq<Event>): set<nat>
  {
    set e | e in log && e.Admitted? && Freed(e.who) !in log :: e.who
  }

  ghost predicate DrainInv(s: State) { IsFinished(s) ==> s.workers == 0 }

  /** What must have happened, and what must not, for an event to happen next. */
  ghost predicate MayFollow(hooked: bool, past: seq<Event>, e: Event)
  {
    match e
    case Shut => Shut !in past
    case Stopped => hooked && Shut in past && Stopped !in past && Finished !in past
    case Finished =>
      && Shut in past && Finished !in past && (hooked ==> Stopped in past)
      && forall u :: Admitted(u) in past ==> Left(u) in past
    case Dropped => |Unreleased(past)| == SLOTS && Stopped !in past && Finished !in past
    case Admitted(u) => |Unreleased(past)| < SLOTS && Admitted(u) !in past && Stopped !in past && Finished !in past
    case Hung(u) => Admitted(u) in past && Hung(u) !in past
    case Freed(u) => Hung(u) in past && Freed(u) !in past
    case Left(u) => Freed(u) in past && Left(u) !in past
  }

  ghost predicate InOrder(hooked: bool, log: seq<Event>)
  {
    forall i :: 0 <= i < |log| ==> MayFollow(hooked, log[..i], log[i])
  }

  ghost predicate Inv(s: State)
  {
    && LockInv(s) && ServeInv(s) && ConfigInv(s) && OnceInv(s) && CountInv(s) && LogInv(s) && DrainInv(s)
    && InOrder(s.hooked, s.log)
  }

  // ---- one thread moves ----

  /** u is s with thread t at q. */
  predicate Moved(s: State, u: State, t: nat, q: Thread)
  {
    u.threads == s.threads[t := q] && u.hooked == s.hooked && (s.cancelled ==> u.cancelled)
  }

  predicate Was(s: State, t: nat, f: Thread -> bool) { t in s.threads && f(s.threads[t]) }

  predicate LockMove(s: State, u: State, t: nat, q: Thread)
  {
    || (u.lock == s.lock && Was(s, t, HasLock) == HasLock(q))
    || (s.lock == None && u.lock == Some(t) && HasLock(q))
    || (Was(s, t, HasLock) && u.lock == None && !HasLock(q))
  }

  predicate ServeMove(s: State, u: State, t: nat, q: Thread)
  {
    || (u.serving == s.serving && u.server == s.server && Was(s, t, LetIn) == LetIn(q))
    || (Was(s, t, HasLock) && !s.serving && u.serving && u.server == Some(t) && LetIn(q))
  }

  predicate ConfigMove(s: State, u: State, t: nat, q: Thread)
  {
    && (s.serving ==> u.serving)
    && (u.serving && !s.serving ==> Was(s, t, HasLock))
    && (u.config == s.config || !s.serving)
    && ConfigOk(u, q)
  }

  predicate OnceMove(s: State, u: State, t: nat, q: Thread)
  {
    && ( || (u.once == s.once && Was(s, t, InOnce) == InOnce(q))
         || (s.once == Unused && u.once == Busy(t) && InOnce(q))
         || (s.once == Busy(t) && u.once == Done && !InOnce(q)))
    && (PastClose(q) ==> u.once == Done)
  }

  function One(b: bool): int { if b then 1 else 0 }

  predicate CountMove(s: State, u: State, t: nat, q: Thread)
  {
    && u.slots <= SLOTS
    && u.slots - s.slots == One(HasSlot(q)) - One(Was(s, t, HasSlot))
    && u.workers - s.workers == One(Counted(q)) - One(Was(s, t, Counted))
  }

  lemma {:induction false} MoveKeepsLock(s: State, u: State, t: nat, q: Thread)
    requires LockInv(s) && Moved(s, u, t, q) && LockMove(s, u, t, q)
    ensures LockInv(u)
  {
  }

  lemma {:induction false} MoveKeepsServe(s: State, u: State, t: nat, q: Thread)
    requires ServeInv(s) && Moved(s, u, t, q) && ServeMove(s, u, t, q)
    ensures ServeInv(u)
  {
  }

  lemma {:induction false} MoveKeepsConfig(s: State, u: State, t: nat, q: Thread)
    requires ConfigInv(s) && LockInv(s) && Moved(s, u, t, q) && ConfigMove(s, u, t, q)
    ensures ConfigInv(u)
  {
    forall x | x in u.threads ensures ConfigOk(u, u.threads[x]) {
      if x != t {
        assert ConfigOk(s, s.threads[x]);
        assert HasLock(s.threads[x]) ==> s.lock == Some(x);
      }
    }
  }

  lemma {:induction false} MoveKeepsOnce(s: State, u: State, t: nat, q: Thread)
    requires OnceInv(s) && Moved(s, u, t, q) && OnceMove(s, u, t, q)
    ensures OnceInv(u)
  {
  }

  lemma {:induction false} HoldersPut(m: map<nat, Thread>, t: nat, q: Thread)
    ensures |Holders(m[t := q])| - |Holders(m)| == One(HasSlot(q)) - One(t in m && HasSlot(m[t]))
  {
    assert Holders(m[t := q]) == if HasSlot(q) then Holders(m) + {t} else Holders(m) - {t};
  }

  lemma {:induction false} LivePut(m: map<nat, Thread>, t: nat, q: Thread)
    ensures |Live(m[t := q])| - |Live(m)| == One(Counted(q)) - One(t in m && Counted(m[t]))
  {
    assert Live(m[t := q]) == if Counted(q) then Live(m) + {t} else Live(m) - {t};
  }

  lemma {:induction false} MoveKeepsCount(s: State, u: State, t: nat, q: Thread)
    requires CountInv(s) && Moved(s, u, t, q) && CountMove(s, u, t, q)
    ensures CountInv(u)
  {
    HoldersPut(s.threads, t, q);
    LivePut(s.threads, t, q);
  }

  // ---- every step is such a move ----

  predicate Moves(s: State, u: State, t: nat, q: Thread)
  {
    && Moved(s, u, t, q) && LockMove(s, u, t, q) && ServeMove(s, u, t, q) && ConfigMove(s, u, t, q)
    && OnceMove(s, u, t, q) && CountMove(s, u, t, q)
  }

  /** What the invariants say of one thread. */
  ghost predicate Local(s: State, t: nat, p: Thread)
  {
    && At(s, t, p) && s.slots <= SLOTS
    && (HasLock(p) <==> s.lock == Some(t))
    && (LetIn(p) <==> s.server == Some(t)) && (s.serving <==> s.server.Some?)
    && ConfigOk(s, p)
    && (InOnce(p) <==> s.once == Busy(t)) && (PastClose(p) ==> s.once == Done)
  }

  lemma {:induction false} EnableMoves(s: State, t: nat, x: Setting, at: EnableAt)
    requires Local(s, t, Enable(x, at)) && EnableStep(s, t, x, at).Some?
    ensures var u := EnableStep(s, t, x, at).value; t in u.threads && Moves(s, u, t, u.threads[t])
  {
  }

  lemma {:induction false} CloseMoves(s: State, t: nat, at: CloseAt)
    requires Local(s, t, Close(at)) && CloseStep(s, t, at).Some?
    ensures var (u, d) := CloseStep(s, t, at).value; Moves(s, Put(u, t, Close(d)), t, Close(d))
  {
  }

  lemma {:induction false} ClosingMoves(s: State, t: nat, at: CloseAt, failed: bool)
    requires Local(s, t, Serve(Closing(at, failed))) && CloseStep(s, t, at).Some?
    ensures var (u, d) := CloseStep(s, t, at).value;
            var q := Serve(Closing(d, failed));
            Moves(s, Put(u, t, q), t, q)
  {
  }

  lemma {:induction false} ClaimingMoves(s: State, t: nat, at: ServeAt)
    requires Local(s, t, Serve(at)) && ServeStep(s, t, at).Some?
    requires at.Requesting? || at.Claiming?
    ensures var u := ServeStep(s, t, at).value; t in u.threads && Moves(s, u, t, u.threads[t])
  {
  }

  lemma {:induction false} UnlockingMoves(s: State, t: nat, at: ServeAt)
    requires Local(s, t, Serve(at)) && ServeStep(s, t, at).Some?
    requires at.Starting? || at.Denying?
    ensures var u := ServeStep(s, t, at).value; t in u.threads && Moves(s, u, t, u.threads[t])
  {
  }

  lemma {:induction false} LoopMoves(s: State, t: nat, at: ServeAt)
    requires Local(s, t, Serve(at)) && ServeStep(s, t, at).Some?
    requires at.Offering? || at.Adding?
    ensures var u := ServeStep(s, t, at).value; t in u.threads && Moves(s, u, t, u.threads[t])
  {
  }

  lemma {:induction false} EndingMoves(s: State, t: nat, at: ServeAt)
    requires Local(s, t, Serve(at)) && ServeStep(s, t, at).Some?
    requires (at.Closing? && at.at.Closed?) || at.Stopping? || at.Draining?
    ensures var u := ServeStep(s, t, at).value; t in u.threads && Moves(s, u, t, u.threads[t])
  {
  }

  lemma {:induction false} ServeMoves(s: State, t: nat, at: ServeAt)
    requires Local(s, t, Serve(at)) && ServeStep(s, t, at).Some?
    ensures var u := ServeStep(s, t, at).value; t in u.threads && Moves(s, u, t, u.threads[t])
  {
    if at.Closing? && !at.at.Closed? {
      ClosingMoves(s, t, at.at, at.failed);
    } else if at.Closing? || at.Stopping? || at.Draining? {
      EndingMoves(s, t, at);
    } else if at.Offering? || at.Adding? {
      LoopMoves(s, t, at);
    } else if at.Starting? || at.Denying? {
      UnlockingMoves(s, t, at);
    } else {
      ClaimingMoves(s, t, at);
    }
  }

  lemma {:induction false} AskingMoves(s: State, t: nat, at: WorkAt)
    requires Local(s, t, Work(at)) && WorkStep(s, t, at).Some?
    requires at.Waiting? || at.Reading? || at.Unlocking?
    ensures var u := WorkStep(s, t, at).value; t in u.threads && Moves(s, u, t, u.threads[t])
  {
  }

  lemma {:induction false} LeavingMoves(s: State, t: nat, at: WorkAt)
    requires Local(s, t, Work(at)) && WorkStep(s, t, at).Some?
    requires at.Receiving? || at.Calling? || at.Releasing? || at.Departing?
    ensures var u := WorkStep(s, t, at).value; t in u.threads && Moves(s, u, t, u.threads[t])
  {
  }

  lemma {:induction false} WorkMoves(s: State, t: nat, at: WorkAt)
    requires Local(s, t, Work(at)) && WorkStep(s, t, at).Some?
    ensures var u := WorkStep(s, t, at).value; t in u.threads && Moves(s, u, t, u.threads[t])
  {
    if at.Waiting? || at.Reading? || at.Unlocking? {
      AskingMoves(s, t, at);
    } else {
      LeavingMoves(s, t, at);
    }
  }

  ghost predicate Core(s: State)
  {
    LockInv(s) && ServeInv(s) && ConfigInv(s) && OnceInv(s) && CountInv(s)
  }

  lemma {:induction false} CoreIsLocal(s: State, t: nat)
    requires Core(s) && t in s.threads
    ensures Local(s, t, s.threads[t])
  {
    assert ConfigOk(s, s.threads[t]);
  }

  lemma {:induction false} MovesKeepCore(s: State, u: State, t: nat, q: Thread)
    requires Core(s) && Moves(s, u, t, q)
    ensures Core(u)
  {
    MoveKeepsLock(s, u, t, q);
    MoveKeepsServe(s, u, t, q);
    MoveKeepsConfig(s, u, t, q);
    MoveKeepsOnce(s, u, t, q);
    MoveKeepsCount(s, u, t, q);
  }

  lemma {:induction false} GoMoves(s: State, t: nat)
    requires Core(s) && Effect(s, Go(t)).Some?
    ensures var u := Effect(s, Go(t)).value; t in u.threads && Moves(s, u, t, u.threads[t])
  {
    CoreIsLocal(s, t);
    match s.threads[t] {
      case Enable(x, at) => EnableMoves(s, t, x, at);
      case Close(at) => CloseMoves(s, t, at);
      case Serve(at) => ServeMoves(s, t, at);
      case Work(at) => WorkMoves(s, t, at);
    }
  }

  lemma {:induction false} GoKeepsCore(s: State, t: nat)
    requires Core(s) && Effect(s, Go(t)).Some?
    ensures Core(Effect(s, Go(t)).value) && Effect(s, Go(t)).value.hooked == s.hooked
  {
    var u := Effect(s, Go(t)).value;
    GoMoves(s, t);
    MovesKeepCore(s, u, t, u.threads[t]);
  }

  lemma {:induction false} PutKeepsCore(s: State, t: nat, q: Thread)
    requires Core(s) && Moves(s, Put(s, t, q), t, q)
    ensures Core(Put(s, t, q))
  {
    MovesKeepCore(s, Put(s, t, q), t, q);
  }

  /** The accept loop hands its slot and its count to the worker it starts. */
  lemma {:induction false} SpawnKeepsCore(s: State, t: nat, child: nat)
    requires Core(s) && At(s, t, Serve(Spawning)) && child !in s.threads
    ensures Core(Put(Put(s, t, Serve(Accepting)), child, Work(Receiving)))
  {
    CoreIsLocal(s, t);
    var p, q := Serve(Accepting), Work(Receiving);
    var m := Put(s, t, p);
    var u := Put(m, child, q);
    MoveKeepsLock(s, m, t, p);
    MoveKeepsServe(s, m, t, p);
    MoveKeepsConfig(s, m, t, p);
    MoveKeepsOnce(s, m, t, p);
    MoveKeepsLock(m, u, child, q);
    MoveKeepsServe(m, u, child, q);
    MoveKeepsConfig(m, u, child, q);
    MoveKeepsOnce(m, u, child, q);
    HoldersPut(s.threads, t, p);
    HoldersPut(m.threads, child, q);
    LivePut(s.threads, t, p);
    LivePut(m.threads, child, q);
  }

  lemma {:induction false} BeginKeepsCore(s: State, t: nat, call: Call)
    requires Core(s) && t !in s.threads
    ensures Core(Put(s, t, First(call)))
  {
    assert s.server != Some(t) && s.lock != Some(t) && s.once != Busy(t);
    PutKeepsCore(s, t, First(call));
  }

  lemma {:induction false} AcceptKeepsCore(s: State, t: nat)
    requires Core(s) && At(s, t, Serve(Accepting))
    ensures Core(Put(s, t, Serve(Offering)))
  {
    CoreIsLocal(s, t);
    PutKeepsCore(s, t, Serve(Offering));
  }

  lemma {:induction false} FailKeepsCore(s: State, t: nat, failed: bool)
    requires Core(s) && At(s, t, Serve(Accepting))
    ensures Core(Put(s, t, Serve(Closing(Entering, failed))))
  {
    CoreIsLocal(s, t);
    PutKeepsCore(s, t, Serve(Closing(Entering, failed)));
  }

  lemma {:induction false} AskKeepsCore(s: State, t: nat)
    requires Core(s) && At(s, t, Work(Receiving))
    ensures Core(Put(s, t, Work(Waiting)))
  {
    CoreIsLocal(s, t);
    PutKeepsCore(s, t, Work(Waiting));
  }

  lemma {:induction false} EffectKeepsCore(s: State, a: Action)
    requires Core(s) && Effect(s, a).Some?
    ensures Core(Effect(s, a).value) && Effect(s, a).value.hooked == s.hooked
  {
    match a {
      case Begin(t, call) => BeginKeepsCore(s, t, call);
      case Go(t) => GoKeepsCore(s, t);
      case Accept(t) => AcceptKeepsCore(s, t);
      case Fail(t, ended) => FailKeepsCore(s, t, !(ended || s.cancelled));
      case Spawn(t, child) => SpawnKeepsCore(s, t, child);
      case Ask(t) => AskKeepsCore(s, t);
    }
  }

  // ---- what is said is what happens ----

  /** Between s and u, what was said is what happened. */
  predicate Tells(s: State, u: State, said: Option<Event>, e: Event)
  {
    e.Dropped? || (Happened(u, e) <==> Happened(s, e) || said == Some(e))
  }

  /** The state is one where thread t's own place can be trusted. */
  ghost predicate Trusted(s: State, t: nat, p: Thread)
  {
    && Local(s, t, p)
    && (s.server.Some? ==> s.server.value in s.threads && LetIn(s.threads[s.server.value]))
    && (s.once.Busy? ==> s.once.owner in s.threads)
  }

  lemma {:induction false} EnableTells(s: State, t: nat, x: Setting, at: EnableAt, e: Event)
    requires Trusted(s, t, Enable(x, at)) && EnableStep(s, t, x, at).Some?
    ensures Tells(s, EnableStep(s, t, x, at).value, None, e)
  {
  }

  lemma {:induction false} CloseTells(s: State, t: nat, at: CloseAt, e: Event)
    requires Trusted(s, t, Close(at)) && CloseStep(s, t, at).Some?
    ensures var (u, d) := CloseStep(s, t, at).value;
            Tells(s, Put(u, t, Close(d)), Makes(s.hooked, t, Close(at)), e)
  {
  }

  lemma {:induction false} ClosingTells(s: State, t: nat, at: CloseAt, failed: bool, e: Event)
    requires Trusted(s, t, Serve(Closing(at, failed))) && CloseStep(s, t, at).Some?
    ensures var (u, d) := CloseStep(s, t, at).value;
            Tells(s, Put(u, t, Serve(Closing(d, failed))), Makes(s.hooked, t, Serve(Closing(at, failed))), e)
  {
  }

  predicate OfHost(e: Event) { e.Shut? || e.Stopped? || e.Finished? }

  lemma {:induction false} ServeTellsNoWork(s: State, t: nat, at: ServeAt, e: Event)
    requires Trusted(s, t, Serve(at)) && ServeStep(s, t, at).Some? && !OfHost(e)
    ensures Happened(ServeStep(s, t, at).value, e) == Happened(s, e)
  {
    ServeMoves(s, t, at);
    ServeStaysServe(s, t, at);
    NoWorkMoved(s, ServeStep(s, t, at).value, t, e);
  }

  lemma {:induction false} ServeStaysServe(s: State, t: nat, at: ServeAt)
    requires ServeStep(s, t, at).Some?
    ensures var u := ServeStep(s, t, at).value; t in u.threads && u.threads[t].Serve?
  {
  }

  lemma {:induction false} NoWorkMoved(s: State, u: State, t: nat, e: Event)
    requires t in s.threads && !s.threads[t].Work? && !OfHost(e)
    requires t in u.threads && u.threads == s.threads[t := u.threads[t]] && !u.threads[t].Work?
    ensures Happened(u, e) == Happened(s, e)
  {
  }

  lemma {:induction false} EndingTells(s: State, t: nat, at: ServeAt, e: Event)
    requires Trusted(s, t, Serve(at)) && ServeStep(s, t, at).Some? && OfHost(e)
    requires (at.Closing? && at.at.Closed?) || at.Stopping? || at.Draining?
    ensures Tells(s, ServeStep(s, t, at).value, Makes(s.hooked, t, Serve(at)), e)
  {
  }

  lemma {:induction false} OpeningTells(s: State, t: nat, at: ServeAt, e: Event)
    requires Trusted(s, t, Serve(at)) && ServeStep(s, t, at).Some? && OfHost(e)
    requires !at.Closing? && !at.Stopping? && !at.Draining?
    ensures Tells(s, ServeStep(s, t, at).value, None, e)
  {
  }

  lemma {:induction false} ServeTells(s: State, t: nat, at: ServeAt, e: Event)
    requires Trusted(s, t, Serve(at)) && ServeStep(s, t, at).Some?
    ensures Tells(s, ServeStep(s, t, at).value, Makes(s.hooked, t, Serve(at)), e)
  {
    if at.Closing? && !at.at.Closed? {
      ClosingTells(s, t, at.at, at.failed, e);
    } else if !OfHost(e) {
      ServeTellsNoWork(s, t, at, e);
    } else if at.Closing? || at.Stopping? || at.Draining? {
      EndingTells(s, t, at, e);
    } else {
      OpeningTells(s, t, at, e);
    }
  }

  lemma {:induction false} WorkTellsNoHost(s: State, t: nat, at: WorkAt, e: Event)
    requires Trusted(s, t, Work(at)) && WorkStep(s, t, at).Some? && OfHost(e)
    ensures Happened(WorkStep(s, t, at).value, e) == Happened(s, e)
  {
  }

  lemma {:induction false} WorkTells(s: State, t: nat, at: WorkAt, e: Event)
    requires Trusted(s, t, Work(at)) && WorkStep(s, t, at).Some?
    ensures Tells(s, WorkStep(s, t, at).value, Makes(s.hooked, t, Work(at)), e)
  {
    if OfHost(e) {
      WorkTellsNoHost(s, t, at, e);
    } else {
      var p, q := s.threads[t], WorkStep(s, t, at).value.threads[t];
      assert WorkStep(s, t, at).value.threads == s.threads[t := q] && q.Work?;
    }
  }

  lemma {:induction false} SpawnTells(s: State, t: nat, child: nat, e: Event)
    requires Trusted(s, t, Serve(Spawning)) && child !in s.threads
    ensures Tells(s, Put(Put(s, t, Serve(Accepting)), child, Work(Receiving)), Some(Admitted(child)), e)
  {
  }

  lemma {:induction false} PutTells(s: State, t: nat, q: Thread, e: Event)
    requires Core(s)
    requires if t in s.threads then
               || (At(s, t, Serve(Accepting)) && (q == Serve(Offering) || (q.Serve? && q.sat.Closing? && q.sat.at.Entering?)))
               || (At(s, t, Work(Receiving)) && q == Work(Waiting))
             else exists call :: q == First(call)
    ensures Tells(s, Put(s, t, q), None, e)
  {
    if t in s.threads {
      CoreIsLocal(s, t);
    }
  }

  lemma {:induction false} GoTells(s: State, t: nat, e: Event)
    requires Core(s) && Effect(s, Go(t)).Some?
    ensures var u := Effect(s, Go(t)).value; Tells(s, u, Says(s, Go(t), u), e)
  {
    CoreIsLocal(s, t);
    match s.threads[t] {
      case Enable(x, at) => EnableTells(s, t, x, at, e);
      case Close(at) => CloseTells(s, t, at, e);
      case Serve(at) => ServeTells(s, t, at, e);
      case Work(at) => WorkTells(s, t, at, e);
    }
  }

  lemma {:induction false} EffectTells(s: State, a: Action, e: Event)
    requires Core(s) && Effect(s, a).Some?
    ensures var u := Effect(s, a).value; Tells(s, u, Says(s, a, u), e)
  {
    match a {
      case Begin(t, call) => PutTells(s, t, First(call), e);
      case Go(t) => GoTells(s, t, e);
      case Accept(t) => PutTells(s, t, Serve(Offering), e);
      case Fail(t, ended) => PutTells(s, t, Serve(Closing(Entering, !(ended || s.cancelled))), e);
      case Spawn(t, child) =>
        CoreIsLocal(s, t);
        SpawnTells(s, t, child, e);
      case Ask(t) => PutTells(s, t, Work(Waiting), e);
    }
  }

  /** A wait group at zero has no worker left in it. */
  lemma {:induction false} NoneLive(s: State, t: nat)
    requires CountInv(s) && s.workers == 0 && Works(s, t)
    ensures s.threads[t].wat.Gone?
  {
    assert t !in Live(s.threads);
  }

  lemma {:induction false} WorkMayFollow(s: State, t: nat, e: Event)
    requires Core(s) && LogInv(s) && Works(s, t) && Makes(s.hooked, t, s.threads[t]) == Some(e)
    ensures MayFollow(s.hooked, s.log, e)
  {
    assert Admitted(t) in s.log <==> Happened(s, Admitted(t));
    assert Hung(t) in s.log <==> Happened(s, Hung(t));
    assert Freed(t) in s.log <==> Happened(s, Freed(t));
    assert Left(t) in s.log <==> Happened(s, Left(t));
  }

  lemma {:induction false} CloseMayFollow(s: State, t: nat, e: Event)
    requires Core(s) && LogInv(s) && t in s.threads && CloseAtOf(s.threads[t]) == Some(Shutting)
    ensures MayFollow(s.hooked, s.log, Shut)
  {
    CoreIsLocal(s, t);
    assert Shut in s.log <==> Happened(s, Shut);
  }

  lemma {:induction false} ServeMayFollow(s: State, t: nat, e: Event)
    requires Core(s) && LogInv(s) && t in s.threads && s.threads[t].Serve? && !s.threads[t].sat.Closing?
    requires Makes(s.hooked, t, s.threads[t]) == Some(e) && GoStep(s, t, s.threads[t]).Some?
    ensures MayFollow(s.hooked, s.log, e)
  {
    CoreIsLocal(s, t);
    assert Shut in s.log <==> Happened(s, Shut);
    assert Stopped in s.log <==> Happened(s, Stopped);
    assert Finished in s.log <==> Happened(s, Finished);
    if e == Finished {
      forall u | Admitted(u) in s.log ensures Left(u) in s.log {
        assert Happened(s, Admitted(u));
        NoneLive(s, u);
        assert Happened(s, Left(u));
      }
    }
  }

  lemma {:induction false} UnreleasedHolds(s: State, t: nat)
    requires Core(s) && LogInv(s)
    ensures t in Unreleased(s.log) <==> t in Holders(s.threads) && s.threads[t].Work?
  {
    assert Admitted(t) in s.log <==> Happened(s, Admitted(t));
    assert Freed(t) in s.log <==> Happened(s, Freed(t));
  }

  lemma {:induction false} SlotsAreUnreleased(s: State)
    requires Core(s) && LogInv(s)
    ensures s.slots == |Unreleased(s.log)| + One(s.server.Some? && Was(s, s.server.value, HasSlot)) <= SLOTS
  {
    var out, all := Unreleased(s.log), Holders(s.threads);
    forall t: nat ensures t in out <==> t in all && s.server != Some(t) {
      UnreleasedHolds(s, t);
      HolderIs(s, t);
    }
    LessServer(out, all, s.server);
  }

  lemma {:induction false} HolderIs(s: State, t: nat)
    requires ServeInv(s)
    ensures t in Holders(s.threads) ==> (s.threads[t].Work? <==> s.server != Some(t))
  {
  }

  lemma {:induction false} LessServer(out: set<nat>, all: set<nat>, server: Option<nat>)
    requires forall t: nat :: t in out <==> t in all && server != Some(t)
    ensures |all| == |out| + One(server.Some? && server.value in all)
  {
    if server.Some? && server.value in all {
      assert all == out + {server.value};
    } else {
      assert all == out;
    }
  }

  lemma {:induction false} SpawnMayFollow(s: State, t: nat, child: nat)
    requires Core(s) && LogInv(s) && At(s, t, Serve(Spawning)) && child !in s.threads
    ensures MayFollow(s.hooked, s.log, Admitted(child))
  {
    CoreIsLocal(s, t);
    SlotsAreUnreleased(s);
    assert Admitted(child) in s.log <==> Happened(s, Admitted(child));
    assert Stopped in s.log <==> Happened(s, Stopped);
    assert Finished in s.log <==> Happened(s, Finished);
  }

  /** A connection is refused only when every slot is a worker's. */
  lemma {:induction false} DropMayFollow(s: State, t: nat)
    requires Core(s) && LogInv(s) && Effect(s, Go(t)).Some? && Drops(s, Effect(s, Go(t)).value, t)
    ensures MayFollow(s.hooked, s.log, Dropped)
  {
    CoreIsLocal(s, t);
    SlotsAreUnreleased(s);
    assert Stopped in s.log <==> Happened(s, Stopped);
    assert Finished in s.log <==> Happened(s, Finished);
  }

  lemma {:induction false} SaysInOrder(s: State, a: Action, u: State)
    requires Core(s) && LogInv(s) && Effect(s, a) == Some(u) && Says(s, a, u).Some?
    ensures MayFollow(s.hooked, s.log, Says(s, a, u).value)
  {
    var e := Says(s, a, u).value;
    if a.Spawn? {
      SpawnMayFollow(s, a.t, a.child);
    } else if Drops(s, u, a.t) {
      DropMayFollow(s, a.t);
    } else {
      var t := a.t;
      if Works(s, t) {
        WorkMayFollow(s, t, e);
      } else if CloseAtOf(s.threads[t]) == Some(Shutting) {
        CloseMayFollow(s, t, e);
      } else {
        ServeMayFollow(s, t, e);
      }
    }
  }

  // ---- whole runs ----

  lemma {:induction false} StepKeepsLog(s: State, a: Action)
    requires Core(s) && LogInv(s) && Step(s, a).Some?
    ensures LogInv(Step(s, a).value)
  {
    var u := Step(s, a).value;
    forall e: Event | !e.Dropped? ensures e in u.log <==> Happened(u, e) {
      EffectTells(s, a, e);
      assert e in s.log <==> Happened(s, e);
      SameButLog(Effect(s, a).value, u, e);
    }
  }

  lemma {:induction false} SameButLog(s: State, u: State, e: Event)
    requires u == s.(log := u.log)
    ensures Happened(u, e) == Happened(s, e)
  {
  }

  lemma {:induction false} StepKeepsOrder(s: State, a: Action)
    requires Core(s) && LogInv(s) && InOrder(s.hooked, s.log) && Step(s, a).Some?
    ensures InOrder(s.hooked, Step(s, a).value.log)
  {
    var log := Step(s, a).value.log;
    if Says(s, a, Effect(s, a).value).Some? {
      SaysInOrder(s, a, Effect(s, a).value);
      forall i | 0 <= i < |log| ensures MayFollow(s.hooked, log[..i], log[i]) {
        assert i < |s.log| ==> log[..i] == s.log[..i];
        assert i == |s.log| ==> log[..i] == s.log;
      }
    }
  }

  lemma {:induction false} GoKeepsDrain(s: State, t: nat)
    requires Core(s) && Effect(s, Go(t)).Some? && IsFinished(s) && s.workers == 0
    ensures Effect(s, Go(t)).value.workers == 0
  {
    CoreIsLocal(s, t);
  }

  lemma {:induction false} StepKeepsDrain(s: State, a: Action)
    requires Core(s) && DrainInv(s) && Step(s, a).Some?
    ensures DrainInv(Step(s, a).value)
  {
    var m, u := Effect(s, a).value, Step(s, a).value;
    EffectTells(s, a, Finished);
    SameButLog(m, u, Finished);
    if IsFinished(s) && a.Go? {
      GoKeepsDrain(s, a.t);
    }
  }

  lemma {:induction false} StepKeepsInv(s: State, a: Action)
    requires Inv(s) && Step(s, a).Some?
    ensures Inv(Step(s, a).value)
  {
    EffectKeepsCore(s, a);
    StepKeepsLog(s, a);
    StepKeepsOrder(s, a);
    StepKeepsDrain(s, a);
    CoreButLog(Effect(s, a).value, Step(s, a).value);
  }

  lemma {:induction false} CoreButLog(s: State, u: State)
    requires Core(s) && u == s.(log := u.log)
    ensures Core(u)
  {
    forall t | t in u.threads ensures ConfigOk(u, u.threads[t]) {
      assert ConfigOk(s, s.threads[t]);
    }
  }

  lemma {:induction false} RunKeepsInv(s: State, actions: seq<Action>)
    requires Inv(s) && Run(s, actions).Some?
    ensures Inv(Run(s, actions).value)
    decreases |actions|
  {
    if actions != [] {
      StepKeepsInv(s, actions[0]);
      RunKeepsInv(Step(s, actions[0]).value, actions[1..]);
    }
  }

  lemma {:induction false} InitialInv(hooked: bool)
    ensures Inv(Initial(hooked))
  {
    var s := Initial(hooked);
    assert Holders(s.threads) == {} && Live(s.threads) == {};
  }

  /** Slots count the connections admitted and not released, and the one the accept
      loop is about to start; there are never more than 32; what happens, happens in
      order; one Serve at most is let in; and a host that has finished has no
      connection left. */
  lemma {:induction false} HostIsSafe(hooked: bool, actions: seq<Action>)
    requires Run(Initial(hooked), actions).Some?
    ensures var s := Run(Initial(hooked), actions).value;
            && InOrder(s.hooked, s.log)
            && s.slots == |Unreleased(s.log)| + One(s.server.Some? && Was(s, s.server.value, HasSlot)) <= 32
            && (forall t, u :: Was(s, t, LetIn) && Was(s, u, LetIn) ==> t == u)
            && (Finished in s.log ==> Unreleased(s.log) == {} && s.workers == 0)
  {
    InitialInv(hooked);
    RunKeepsInv(Initial(hooked), actions);
    var s := Run(Initial(hooked), actions).value;
    SlotsAreUnreleased(s);
    assert Finished in s.log <==> Happened(s, Finished);
    forall t | Finished in s.log ensures t !in Unreleased(s.log) {
      FinishedIsEmpty(s, t);
    }
  }

  lemma {:induction false} FinishedIsEmpty(s: State, t: nat)
    requires Inv(s) && IsFinished(s)
    ensures t !in Unreleased(s.log)
  {
    assert Admitted(t) in s.log <==> Happened(s, Admitted(t));
    assert Freed(t) in s.log <==> Happened(s, Freed(t));
    if Works(s, t) {
      NoneLive(s, t);
    }
  }

  // ---- configuration ----

  lemma {:induction false} GoFreezes(s: State, t: nat)
    requires Core(s) && Effect(s, Go(t)).Some? && s.serving
    ensures var u := Effect(s, Go(t)).value; u.serving && u.config == s.config
  {
    GoMoves(s, t);
  }

  lemma {:induction false} StepFreezes(s: State, a: Action)
    requires Core(s) && Step(s, a).Some? && s.serving
    ensures var u := Step(s, a).value; u.serving && u.config == s.config
  {
    if a.Go? {
      GoFreezes(s, a.t);
    }
  }

  /** Once a host serves, its policy and its applier never change. */
  lemma {:induction false} ConfigurationIsFrozen(s: State, actions: seq<Action>)
    requires Inv(s) && s.serving && Run(s, actions).Some?
    ensures var u := Run(s, actions).value; u.serving && u.config == s.config
    decreases |actions|
  {
    if actions != [] {
      StepFreezes(s, actions[0]);
      StepKeepsInv(s, actions[0]);
      ConfigurationIsFrozen(Step(s, actions[0]).value, actions[1..]);
    }
  }

  /** What a call has read of the configuration. */
  function SeenBy(p: Thread): Option<Config>
  {
    match p
    case Work(Unlocking(c)) => Some(c)
    case Work(Calling(c)) => Some(c)
    case _ => None
  }

  /** Any two calls of a run, however far apart, are decided by one policy and one
      applier. */
  lemma {:induction false} CallsSeeOneConfiguration(hooked: bool, before: seq<Action>, after: seq<Action>, t: nat, u: nat)
    requires Run(Initial(hooked), before).Some?
    requires var s := Run(Initial(hooked), before).value;
             && Run(s, after).Some?
             && Was(s, t, p => SeenBy(p).Some?) && Was(Run(s, after).value, u, p => SeenBy(p).Some?)
    ensures var s := Run(Initial(hooked), before).value;
            SeenBy(s.threads[t]) == SeenBy(Run(s, after).value.threads[u])
  {
    InitialInv(hooked);
    RunKeepsInv(Initial(hooked), before);
    var s := Run(Initial(hooked), before).value;
    RunKeepsInv(s, after);
    var v := Run(s, after).value;
    assert ConfigOk(s, s.threads[t]) && ConfigOk(v, v.threads[u]);
    ConfigurationIsFrozen(s, after);
  }

  /** An Enable not yet past its check, or past it and refused. */
  predicate Refusing(p: Thread)
  {
    p.Enable? && (p.eat.Asking? || p.eat.Checking? || p.eat == Answering(false) || p.eat == Answered(false))
  }

  /** Refused whatever happens: the host serves or is cancelled, or the setting is nil. */
  predicate Doomed(s: State, t: nat)
  {
    Was(s, t, Refusing) && (s.serving || s.cancelled || s.threads[t].setting.value.None?)
  }

  lemma {:induction false} GoDooms(s: State, t: nat, x: nat)
    requires Core(s) && Effect(s, Go(x)).Some? && Doomed(s, t)
    ensures Doomed(Effect(s, Go(x)).value, t)
  {
    GoMoves(s, x);
    if x == t {
      EnableRefuses(s, t, s.threads[t].setting, s.threads[t].eat);
    }
  }

  lemma {:induction false} EnableRefuses(s: State, t: nat, x: Setting, at: EnableAt)
    requires At(s, t, Enable(x, at)) && Doomed(s, t) && EnableStep(s, t, x, at).Some?
    ensures Doomed(EnableStep(s, t, x, at).value, t)
  {
  }

  lemma {:induction false} PutDooms(s: State, t: nat, x: nat, q: Thread)
    requires Doomed(s, t) && x != t
    ensures Doomed(Put(s, x, q), t)
  {
  }

  lemma {:induction false} EffectDooms(s: State, t: nat, a: Action)
    requires Core(s) && Effect(s, a).Some? && Doomed(s, t)
    ensures Doomed(Effect(s, a).value, t)
  {
    match a {
      case Begin(x, call) => PutDooms(s, t, x, First(call));
      case Go(x) => GoDooms(s, t, x);
      case Accept(x) => PutDooms(s, t, x, Serve(Offering));
      case Fail(x, ended) => PutDooms(s, t, x, Serve(Closing(Entering, !(ended || s.cancelled))));
      case Spawn(x, child) =>
        PutDooms(s, t, x, Serve(Accepting));
        PutDooms(Put(s, x, Serve(Accepting)), t, child, Work(Receiving));
      case Ask(x) => PutDooms(s, t, x, Work(Waiting));
    }
  }

  lemma {:induction false} StepDooms(s: State, t: nat, a: Action)
    requires Inv(s) && Step(s, a).Some? && Doomed(s, t)
    ensures Doomed(Step(s, a).value, t)
  {
    EffectDooms(s, t, a);
  }

  /** An Enable that starts, or is waiting, once the host serves or its close has
      begun never changes the configuration. */
  lemma {:induction false} LateEnableIsRefused(s: State, t: nat, actions: seq<Action>)
    requires Inv(s) && Doomed(s, t) && Run(s, actions).Some?
    ensures Was(Run(s, actions).value, t, Refusing)
    decreases |actions|
  {
    if actions != [] {
      StepDooms(s, t, actions[0]);
      StepKeepsInv(s, actions[0]);
      LateEnableIsRefused(Step(s, actions[0]).value, t, actions[1..]);
    }
  }

  /** Thread t is past its check and its write would change the configuration. */
  predicate Changes(s: State, t: nat)
  {
    t in s.threads && s.threads[t].Enable? && s.threads[t].eat.Writing? && Set(s.config, s.threads[t].setting) != s.config
  }

  /** The close has begun and no write that would change anything is left. */
  ghost predicate Quiet(s: State) { s.cancelled && forall t :: t in s.threads ==> !Changes(s, t) }

  lemma {:induction false} EnableStaysQuiet(s: State, t: nat, x: Setting, at: EnableAt)
    requires At(s, t, Enable(x, at)) && s.cancelled && !Changes(s, t) && EnableStep(s, t, x, at).Some?
    ensures var u := EnableStep(s, t, x, at).value; u.config == s.config && !Changes(u, t)
  {
  }

  lemma {:induction false} OthersLeaveConfig(s: State, t: nat)
    requires Core(s) && t in s.threads && !s.threads[t].Enable? && Effect(s, Go(t)).Some?
    ensures var u := Effect(s, Go(t)).value; u.config == s.config && t in u.threads && !u.threads[t].Enable?
  {
    match s.threads[t] {
      case Close(at) => CloseLeavesConfig(s, t, at);
      case Serve(at) => ServeLeavesConfig(s, t, at);
      case Work(at) => WorkLeavesConfig(s, t, at);
    }
  }

  lemma {:induction false} CloseLeavesConfig(s: State, t: nat, at: CloseAt)
    requires CloseStep(s, t, at).Some?
    ensures CloseStep(s, t, at).value.0.config == s.config
  {
  }

  lemma {:induction false} WorkLeavesConfig(s: State, t: nat, at: WorkAt)
    requires t in s.threads && WorkStep(s, t, at).Some?
    ensures var u := WorkStep(s, t, at).value; u.config == s.config && t in u.threads && !u.threads[t].Enable?
  {
  }

  lemma {:induction false} ServeLeavesConfig(s: State, t: nat, at: ServeAt)
    requires t in s.threads && ServeStep(s, t, at).Some?
    ensures var u := ServeStep(s, t, at).value; u.config == s.config && t in u.threads && !u.threads[t].Enable?
  {
  }

  lemma {:induction false} GoStaysQuiet(s: State, t: nat)
    requires Core(s) && Quiet(s) && Effect(s, Go(t)).Some?
    ensures var u := Effect(s, Go(t)).value; u.config == s.config && Quiet(u)
  {
    GoMoves(s, t);
    if s.threads[t].Enable? {
      EnableStaysQuiet(s, t, s.threads[t].setting, s.threads[t].eat);
    } else {
      OthersLeaveConfig(s, t);
    }
  }

  lemma {:induction false} StepStaysQuiet(s: State, a: Action)
    requires Core(s) && Quiet(s) && Step(s, a).Some?
    ensures var u := Step(s, a).value; u.config == s.config && Quiet(u)
  {
    if a.Go? {
      GoStaysQuiet(s, a.t);
    }
  }

  lemma {:induction false} QuietStays(s: State, actions: seq<Action>)
    requires Inv(s) && Quiet(s) && Run(s, actions).Some?
    ensures Run(s, actions).value.config == s.config
    decreases |actions|
  {
    if actions != [] {
      StepStaysQuiet(s, actions[0]);
      StepKeepsInv(s, actions[0]);
      QuietStays(Step(s, actions[0]).value, actions[1..]);
    }
  }

  /** Once a close has begun, the configuration is what it will ever be exactly when no
      Enable stands before a write that would change it. */
  lemma {:induction false} CloseFreezesExactly(s: State)
    requires Inv(s) && s.cancelled
    ensures (forall actions: seq<Action> :: Run(s, actions).Some? ==> Run(s, actions).value.config == s.config)
            <==> forall t :: t in s.threads ==> !Changes(s, t)
  {
    if Quiet(s) {
      forall actions: seq<Action> | Run(s, actions).Some? ensures Run(s, actions).value.config == s.config {
        QuietStays(s, actions);
      }
    } else {
      var t :| t in s.threads && Changes(s, t);
      var u := Step(s, Go(t)).value;
      RunOne(s, [], Go(t), u);
      assert [] + [Go(t)] == [Go(t)];
      assert Run(s, [Go(t)]) == Some(u) && u.config != s.config;
    }
  }

  lemma {:induction false} RunOne(s: State, actions: seq<Action>, a: Action, u: State)
    requires Run(s, actions).Some? && Step(Run(s, actions).value, a) == Some(u)
    ensures Run(s, actions + [a]) == Some(u)
    decreases |actions|
  {
    var all := actions + [a];
    if actions == [] {
      assert all[1..] == [];
    } else {
      assert all[0] == actions[0] && all[1..] == actions[1..] + [a];
      RunOne(Step(s, actions[0]).value, actions[1..], a, u);
    }
  }

  /** The close takes no lock, so the freeze starts at Serve and not at Close: an
      Enable past its check sets a policy after the close began, and says so. */
  lemma {:induction false} CloseDoesNotFreeze(hooked: bool, p: nat) returns (actions: seq<Action>)
    ensures Run(Initial(hooked), actions).Some?
    ensures var s := Run(Initial(hooked), actions).value;
            s.cancelled && s.config.policy == Some(p) && At(s, 0, Enable(Policy(Some(p)), Answering(true)))
  {
    var x := Policy(Some(p));
    var s0 := Initial(hooked);
    var s1 := Put(s0, 0, Enable(x, Asking));
    var s2 := Put(s1, 1, Close(Entering));
    var s3 := Put(s2.(lock := Some(0)), 0, Enable(x, Checking));
    var s4 := Put(s3, 0, Enable(x, Writing));
    var s5 := Put(s4.(once := Busy(1)), 1, Close(Cancelling));
    var s6 := Put(s5.(cancelled := true), 1, Close(Shutting));
    var s7 := Put(s6.(config := Config(Some(p), None)), 0, Enable(x, Answering(true)));
    RunOne(s0, [], Begin(0, ToEnable(x)), s1);
    RunOne(s0, [Begin(0, ToEnable(x))], Begin(1, ToClose), s2);
    actions := [Begin(0, ToEnable(x))] + [Begin(1, ToClose)];
    RunOne(s0, actions, Go(0), s3);
    actions := actions + [Go(0)];
    RunOne(s0, actions, Go(0), s4);
    actions := actions + [Go(0)];
    RunOne(s0, actions, Go(1), s5);
    actions := actions + [Go(1)];
    RunOne(s0, actions, Go(1), s6);
    actions := actions + [Go(1)];
    RunOne(s0, actions, Go(0), s7);
    actions := actions + [Go(0)];
  }
}
