/**
 The futex-style mutex (lib/jthread.c) as a step relation over any number of
 threads. The kernel's part is an atomic compare-exchange, a sleep that only
 starts while the word still has the expected value, and a wake-all; a sleeper
 may also wake for no reason.
 */
module Mutex {
  import opened Common

  type Tid = nat

  /** Where a thread stands: about to do the operation its constructor names. */
  datatype Pc =
    | Idle
    | Lock       // compare-exchange 0 to 1
    | Mark       // compare-exchange 1 to 2
    | Sleep      // sleep while the word is 2
    | Asleep
    | Try        // the trylock's compare-exchange
    | Critical
    | Unlock     // compare-exchange 1 to 0
    | Clear      // set the word to 0
    | Wake       // wake every sleeper
    | Panicked

  datatype State = State(word: nat, pc: map<Tid, Pc>)

  /** What a thread does next where it has a choice. */
  datatype Choice = CallLock | CallTrylock

  function Woken(pc: map<Tid, Pc>): (r: map<Tid, Pc>)
    ensures r.Keys == pc.Keys
    ensures forall t :: t in pc ==> r[t] == if pc[t] == Asleep then Lock else pc[t]
  {
    map t | t in pc :: if pc[t] == Asleep then Lock else pc[t]
  }

  /** One step of thread `t`. A sleeper that steps has woken by itself. */
  function Next(s: State, t: Tid, c: Choice): State
    requires t in s.pc
  {
    match s.pc[t]
    case Idle => Goto(s, t, if c == CallLock then Lock else Try)
    case Lock => if s.word == 0 then State(1, s.pc[t := Critical]) else Goto(s, t, Mark)
    case Mark => State(if s.word == 1 then 2 else s.word, s.pc[t := Sleep])
    case Sleep => Goto(s, t, if s.word == 2 then Asleep else Lock)
    case Asleep => Goto(s, t, Lock)
    case Try => if s.word == 0 then State(1, s.pc[t := Critical]) else Goto(s, t, Idle)
    case Critical => Goto(s, t, Unlock)
    case Unlock =>
      if s.word == 0 then Goto(s, t, Panicked)
      else if s.word == 1 then State(0, s.pc[t := Idle])
      else if s.word == 2 then Goto(s, t, Clear)
      else Goto(s, t, Idle)
    case Clear => State(0, s.pc[t := Wake])
    case Wake => State(s.word, Woken(s.pc)[t := Idle])
    case Panicked => s
  }

  function Goto(s: State, t: Tid, p: Pc): State {
    s.(pc := s.pc[t := p])
  }

  /** Between a successful compare-exchange and the store that gives the word back. */
  ghost predicate Holds(p: Pc) {
    p == Critical || p == Unlock || p == Clear
  }

  ghost predicate Holder(s: State, t: Tid) {
    t in s.pc && Holds(s.pc[t])
  }

  ghost predicate At(s: State, t: Tid, p: Pc) {
    t in s.pc && s.pc[t] == p
  }

  /** Exactly the thread `h`, if any, holds the lock. */
  ghost predicate HeldBy(s: State, h: Option<Tid>) {
    forall t: Tid :: Holder(s, t) <==> h == Some(t)
  }

  /** The word says whether the lock is held; it is 2 once its holder has seen that. */
  ghost predicate WordTells(s: State, h: Option<Tid>) {
    && s.word <= 2
    && (s.word == 0 <==> h == None)
    && (forall t :: At(s, t, Clear) ==> s.word == 2)
  }

  ghost predicate Somebody(s: State, p: Pc) {
    exists t :: At(s, t, p)
  }

  /** Nobody sleeps unless the holder will see a 2, or a wake-up is on its way. */
  ghost predicate NoLostWakeup(s: State) {
    Somebody(s, Asleep) ==> s.word == 2 || Somebody(s, Wake)
  }

  ghost predicate Inv(s: State, h: Option<Tid>) {
    HeldBy(s, h) && WordTells(s, h) && NoLostWakeup(s) && !Somebody(s, Panicked)
  }

  ghost predicate Init(s: State) {
    s.word == 0 && forall t :: t in s.pc ==> s.pc[t] == Idle
  }

  // --- The lock a client sees ---

  datatype LockEvent = Acquire(t: Tid) | Release(t: Tid) | Internal

  ghost function EventOf(s: State, t: Tid): LockEvent
    requires t in s.pc
  {
    if (s.pc[t] == Lock || s.pc[t] == Try) && s.word == 0 then Acquire(t)
    else if (s.pc[t] == Unlock && s.word == 1) || s.pc[t] == Clear then Release(t)
    else Internal
  }

  /** A lock lets `t` in only when it is free and out only when `t` holds it. */
  ghost predicate Allowed(h: Option<Tid>, e: LockEvent) {
    match e
    case Acquire(_) => h == None
    case Release(t) => h == Some(t)
    case Internal => true
  }

  ghost function After(h: Option<Tid>, e: LockEvent): Option<Tid> {
    match e
    case Acquire(t) => Some(t)
    case Release(_) => None
    case Internal => h
  }

  /** One step keeps the invariant and is a step of a lock. */
  lemma StepSafe(s: State, t: Tid, c: Choice, h: Option<Tid>)
    requires Inv(s, h) && t in s.pc
    ensures Allowed(h, EventOf(s, t))
    ensures Inv(Next(s, t, c), After(h, EventOf(s, t)))
  {
    assert Holder(s, t) <==> h == Some(t);
    StepHeld(s, t, c, h);
    StepWakes(s, t, c, h);
    assert !At(s, t, Panicked);
    var s1 := Next(s, t, c);
    assert forall u :: At(s1, u, Panicked) ==> u != t && At(s, u, Panicked);
  }

  lemma StepHeld(s: State, t: Tid, c: Choice, h: Option<Tid>)
    requires HeldBy(s, h) && WordTells(s, h) && t in s.pc
    ensures HeldBy(Next(s, t, c), After(h, EventOf(s, t)))
    ensures WordTells(Next(s, t, c), After(h, EventOf(s, t)))
  {
    var s1 := Next(s, t, c);
    assert Holder(s, t) <==> h == Some(t);
    assert At(s, t, Clear) ==> s.word == 2;
    assert forall u :: u != t ==> (Holder(s1, u) <==> Holder(s, u));
    assert forall u :: u != t && At(s1, u, Clear) ==> At(s, u, Clear) && Holder(s, u);
  }

  lemma StepWakes(s: State, t: Tid, c: Choice, h: Option<Tid>)
    requires HeldBy(s, h) && WordTells(s, h) && NoLostWakeup(s) && t in s.pc
    ensures NoLostWakeup(Next(s, t, c))
  {
    var s1 := Next(s, t, c);
    if u :| At(s1, u, Asleep) {
      if s.pc[t] == Clear {
        assert At(s1, t, Wake);
      } else if s.pc[t] != Sleep || s.word != 2 {
        assert At(s, u, Asleep);
        if s.word == 2 {
          assert Holder(s, t) <==> h == Some(t);
        } else {
          var v :| At(s, v, Wake);
          assert v == t || At(s1, v, Wake);
        }
      }
    }
  }

  // --- Whole runs ---

  datatype Move = Move(t: Tid, c: Choice)

  /** The state after a schedule; moves of unknown threads do nothing. */
  function Run(s: State, moves: seq<Move>): State {
    if moves == [] then s
    else
      var r := Run(s, moves[..|moves| - 1]);
      var m := moves[|moves| - 1];
      if m.t in r.pc then Next(r, m.t, m.c) else r
  }

  /** The lock's events during a schedule. */
  ghost function Trace(s: State, moves: seq<Move>): seq<LockEvent> {
    if moves == [] then []
    else
      var r := Run(s, moves[..|moves| - 1]);
      var t := moves[|moves| - 1].t;
      Trace(s, moves[..|moves| - 1]) + [if t in r.pc then EventOf(r, t) else Internal]
  }

  /** Who holds the lock after a trace. */
  ghost function HolderAfter(trace: seq<LockEvent>): Option<Tid> {
    if trace == [] then None else After(HolderAfter(trace[..|trace| - 1]), trace[|trace| - 1])
  }

  /** A trace in which critical sections never overlap. */
  ghost predicate Serial(trace: seq<LockEvent>) {
    forall i :: 0 <= i < |trace| ==> Allowed(HolderAfter(trace[..i]), trace[i])
  }

  lemma EmptyTrace()
    ensures Serial([]) && HolderAfter([]) == None
  {
  }

  lemma SerialExtends(trace: seq<LockEvent>, e: LockEvent)
    requires Serial(trace) && Allowed(HolderAfter(trace), e)
    ensures Serial(trace + [e]) && HolderAfter(trace + [e]) == After(HolderAfter(trace), e)
  {
    hide Allowed, After;
    var longer := trace + [e];
    assert longer[..|trace|] == trace;
    forall i | 0 <= i < |longer|
      ensures Allowed(HolderAfter(longer[..i]), longer[i])
    {
      if i < |trace| { assert longer[..i] == trace[..i]; }
    }
  }

  lemma InternalStep(h: Option<Tid>)
    ensures Allowed(h, Internal) && After(h, Internal) == h
  {
  }

  lemma InitSafe(s: State)
    requires Init(s)
    ensures Inv(s, None)
  {
  }

  /** Every schedule keeps the invariant and shows its client a lock. */
  lemma {:induction false} RunSafe(s: State, moves: seq<Move>)
    requires Init(s)
    ensures Inv(Run(s, moves), HolderAfter(Trace(s, moves)))
    ensures Serial(Trace(s, moves))
  {
    hide Init, Inv, Next, EventOf, Allowed, After, HolderAfter, Serial;
    if moves == [] {
      InitSafe(s);
      EmptyTrace();
    } else {
      var front, m := moves[..|moves| - 1], moves[|moves| - 1];
      RunSafe(s, front);
      var r, h := Run(s, front), HolderAfter(Trace(s, front));
      if m.t in r.pc {
        StepSafe(r, m.t, m.c, h);
        SerialExtends(Trace(s, front), EventOf(r, m.t));
      } else {
        InternalStep(h);
        SerialExtends(Trace(s, front), Internal);
      }
    }
  }

  /** At most one thread is ever in its critical section. */
  lemma MutualExclusion(s: State, moves: seq<Move>, t: Tid, u: Tid)
    requires Init(s)
    requires Holder(Run(s, moves), t) && Holder(Run(s, moves), u)
    ensures t == u
  {
    RunSafe(s, moves);
  }

  /** No schedule leaves a thread asleep that nobody is about to wake: some thread
      is on its way through the critical section or out of it. */
  lemma NobodyLeftAsleep(s: State, moves: seq<Move>, t: Tid)
    requires Init(s) && At(Run(s, moves), t, Asleep)
    ensures exists u :: Holder(Run(s, moves), u) || At(Run(s, moves), u, Wake)
  {
    RunSafe(s, moves);
    var h := HolderAfter(Trace(s, moves));
    assert h.Some? ==> Holder(Run(s, moves), h.value);
  }

  ghost predicate WaitsOrFails(p: Pc) {
    p == Lock || p == Mark || p == Sleep || p == Asleep || p == Panicked
  }

  /** Whatever the others do, a thread that only tries never waits: each try has ended after
      one step, inside if the lock was free and outside if it was not. */
  lemma {:induction false} TriersNeverWait(s: State, moves: seq<Move>, t: Tid)
    requires Init(s) && forall i :: 0 <= i < |moves| && moves[i].t == t ==> moves[i].c == CallTrylock
    ensures t in Run(s, moves).pc ==> !WaitsOrFails(Run(s, moves).pc[t])
  {
    if moves != [] {
      var front, m := moves[..|moves| - 1], moves[|moves| - 1];
      TriersNeverWait(s, front, t);
      RunSafe(s, front);
      var r := Run(s, front);
      if m.t in r.pc { TrierStep(r, m.t, m.c, t, HolderAfter(Trace(s, front))); }
    }
  }

  /** A thread that finds the lock taken sleeps after three steps of its own, if nobody else moves. */
  lemma WaiterSleeps(s: State, moves: seq<Move>, t: Tid, c: Choice)
    requires Init(s) && t in Run(s, moves).pc && Run(s, moves).pc[t] == Lock
    ensures var r := Run(s, moves);
      var after := Next(Next(Next(r, t, c), t, c), t, c);
      if r.word == 0 then Next(r, t, c).pc[t] == Critical else after.pc[t] == Asleep && after.word == 2
  {
    RunSafe(s, moves);
  }

  lemma TrierStep(s: State, u: Tid, c: Choice, t: Tid, h: Option<Tid>)
    requires Inv(s, h) && u in s.pc && (u == t ==> c == CallTrylock)
    requires t in s.pc ==> !WaitsOrFails(s.pc[t])
    ensures t in Next(s, u, c).pc ==> !WaitsOrFails(Next(s, u, c).pc[t])
    ensures At(s, u, Try) ==> At(Next(s, u, c), u, if h == None then Critical else Idle)
  {
    assert Holder(s, u) <==> h == Some(u);
    assert At(s, u, Unlock) ==> s.word != 0;
  }
}
