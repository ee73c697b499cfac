/**
 The counting semaphore (lib/semaphore.c) over the mutex it is built on: every
 step of a semaphore call is either a step of the mutex or one access to the value,
 so that between a load and the store that depends on it every other thread may move.
 */
module Semaphore {
  import opened Common
  import opened Mutex

  const SEM_VALUE_MAX: nat := 2147483647

  datatype Op = Wait | TryWait | Post

  /** What a call returns: 0, or an error number. */
  datatype Code = Zero | ERange | EAgain

  /** A finished call: what it returned, and the value that it tested last. */
  datatype Call = Call(t: Tid, op: Op, code: Code, saw: nat)

  /** What a thread does once it has given up the lock. */
  datatype Then = Doze | Return(op: Op, code: Code, saw: nat)

  /** Where a thread stands in a semaphore call. */
  datatype Stage =
    | Out
    | Again                  // woken: about to take the lock for another look
    | Locking(op: Op)        // inside the mutex's lock
    | Look(op: Op)           // holds the lock, about to test the value
    | Load(op: Op, saw: nat) // has passed the test, about to load the value to change
    | Store(op: Op, saw: nat, v: nat)  // about to store the value loaded, one up or down
    | Posted(saw: nat)       // holds the lock, value raised, about to compare it with 1
    | Waking(saw: nat)       // holds the lock, about to wake every sleeper
    | Unlocking(next: Then) // inside the mutex's unlock
    | Dozing                 // about to sleep while the value is 0
    | Napping                // asleep on the value

  /** `done` are the finished calls. */
  datatype Sem = Sem(mu: State, value: nat, at: map<Tid, Stage>, done: seq<Call>)

  function Roused(at: map<Tid, Stage>): (r: map<Tid, Stage>)
    ensures r.Keys == at.Keys
    ensures forall t :: t in at ==> r[t] == if at[t] == Napping then Again else at[t]
  {
    map t | t in at :: if at[t] == Napping then Again else at[t]
  }

  ghost predicate SameThreads(s: Sem) {
    s.at.Keys == s.mu.pc.Keys
  }

  /** Whether a call goes on once it has seen the value. */
  predicate Passes(op: Op, value: nat) {
    if op == Post then value < SEM_VALUE_MAX else value > 0
  }

  /** One less, in the 64 bits of the value. */
  function Less(v: nat): nat {
    if v == 0 then 0xFFFF_FFFF_FFFF_FFFF else v - 1
  }

  /** What a call does that did not pass: a wait sleeps, the others fail. */
  function Refused(op: Op, value: nat): Then {
    match op
    case Wait => Doze
    case TryWait => Return(TryWait, EAgain, value)
    case Post => Return(Post, ERange, value)
  }

  function Unlocked(s: Sem, t: Tid, mu: State, next: Then): Sem {
    match next
    case Doze => s.(mu := mu, at := s.at[t := Dozing])
    case Return(op, code, saw) => s.(mu := mu, at := s.at[t := Out], done := s.done + [Call(t, op, code, saw)])
  }

  /** One step of thread `t`; `op` is the call it makes if it is outside one. */
  function Next(s: Sem, t: Tid, op: Op): Sem
    requires t in s.at && t in s.mu.pc
  {
    var mu := Mutex.Next(s.mu, t, CallLock);
    match s.at[t]
    case Out => s.(mu := mu, at := s.at[t := Locking(op)])
    case Again => s.(mu := mu, at := s.at[t := Locking(Wait)])
    case Locking(o) => s.(mu := mu, at := if t in mu.pc && mu.pc[t] == Critical then s.at[t := Look(o)] else s.at)
    case Look(o) =>
      if Passes(o, s.value) then s.(at := s.at[t := Load(o, s.value)])
      else s.(mu := mu, at := s.at[t := Unlocking(Refused(o, s.value))])
    case Load(o, saw) => s.(at := s.at[t := Store(o, saw, s.value)])
    case Store(o, saw, v) =>
      if o == Post then s.(value := v + 1, at := s.at[t := Posted(saw)])
      else s.(mu := mu, value := Less(v), at := s.at[t := Unlocking(Return(o, Zero, saw))])
    case Posted(saw) =>
      if s.value == 1 then s.(at := s.at[t := Waking(saw)])
      else s.(mu := mu, at := s.at[t := Unlocking(Return(Post, Zero, saw))])
    case Waking(saw) => s.(mu := mu, at := Roused(s.at)[t := Unlocking(Return(Post, Zero, saw))])
    case Unlocking(next) =>
      if t in mu.pc && mu.pc[t] == Idle then Unlocked(s, t, mu, next) else s.(mu := mu)
    case Dozing => s.(at := s.at[t := if s.value == 0 then Napping else Again])
    case Napping => s.(at := s.at[t := Again])
  }

  /** Which mutex operations a stage can be at. */
  ghost predicate Agrees(g: Stage, p: Pc) {
    match g
    case Out => p == Idle
    case Again => p == Idle
    case Locking(_) => p == Lock || p == Mark || p == Sleep || p == Asleep
    case Look(_) => p == Critical
    case Load(_, _) => p == Critical
    case Store(_, _, _) => p == Critical
    case Posted(_) => p == Critical
    case Waking(_) => p == Critical
    case Unlocking(_) => p == Unlock || p == Clear || p == Wake
    case Dozing => p == Idle
    case Napping => p == Idle
  }

  ghost predicate InStep(s: Sem) {
    SameThreads(s) && forall t :: t in s.at ==> Agrees(s.at[t], s.mu.pc[t])
  }

  ghost predicate Stands(s: Sem, t: Tid, g: Stage) {
    t in s.at && s.at[t] == g
  }

  /** A thread that will wake every sleeper before it gives up the lock. */
  ghost predicate WillWake(s: Sem, t: Tid) {
    t in s.at && (s.at[t].Waking? || (s.at[t].Posted? && s.value == 1))
  }

  ghost predicate NoLostPost(s: Sem) {
    (exists t :: Stands(s, t, Napping)) && s.value > 0 ==> exists u :: WillWake(s, u)
  }

  /** Finished calls of a kind that returned 0. */
  ghost function Successes(done: seq<Call>, post: bool): nat {
    if done == [] then 0
    else
      var c := done[|done| - 1];
      Successes(done[..|done| - 1], post) + if c.code == Zero && (c.op == Post <==> post) then 1 else 0
  }

  /** A call that has changed the value and has not returned yet. */
  ghost predicate Changed(g: Stage, post: bool) {
    if post then g.Posted? || g.Waking? || (g.Unlocking? && g.next.Return? && g.next.op == Post && g.next.code == Zero)
    else g.Unlocking? && g.next.Return? && g.next.op != Post && g.next.code == Zero
  }

  ghost function Returning(s: Sem, post: bool): set<Tid> {
    set t | t in s.at && Changed(s.at[t], post)
  }

  /** The value is what was there, plus the posts, less the waits. */
  ghost predicate Balanced(s: Sem, init: nat) {
    && s.value == init + Successes(s.done, true) + |Returning(s, true)| - Successes(s.done, false) - |Returning(s, false)|
    && s.value <= 2147483647
  }

  /** What a call may return, given the value that it tested last: a post fails exactly at the
      greatest value, a trywait exactly at 0, and a wait never, but it has seen a unit. */
  ghost predicate Justified(op: Op, code: Code, saw: nat) {
    match op
    case Post => if saw < 2147483647 then code == Zero else saw == 2147483647 && code == ERange
    case TryWait => if saw > 0 then code == Zero else code == EAgain
    case Wait => saw > 0 && code == Zero
  }

  /** What a thread has seen of the value is still so, and what it is to return is right. */
  ghost predicate UpToDate(g: Stage, value: nat) {
    match g
    case Load(o, saw) => Justified(o, Zero, saw) && saw == value
    case Store(o, saw, v) => Justified(o, Zero, saw) && saw == v == value
    case Posted(saw) => Justified(Post, Zero, saw) && value == saw + 1
    case Waking(saw) => Justified(Post, Zero, saw) && value == saw + 1
    case Unlocking(next) => next.Return? ==> Justified(next.op, next.code, next.saw)
    case _ => true
  }

  ghost predicate NothingStale(s: Sem) {
    && (forall t :: t in s.at ==> UpToDate(s.at[t], s.value))
    && forall i :: 0 <= i < |s.done| ==> Justified(s.done[i].op, s.done[i].code, s.done[i].saw)
  }

  ghost predicate Good(s: Sem, init: nat, h: Option<Tid>) {
    Inv(s.mu, h) && InStep(s) && NothingStale(s) && Balanced(s, init) && NoLostPost(s)
  }

  /** What a step can do to the mutex and to the other threads. */
  lemma StepShape(s: Sem, t: Tid, op: Op)
    requires t in s.at && t in s.mu.pc
    ensures Next(s, t, op).mu == s.mu || Next(s, t, op).mu == Mutex.Next(s.mu, t, CallLock)
    ensures Next(s, t, op).at.Keys == s.at.Keys
    ensures forall u :: u in s.at && u != t ==>
      Next(s, t, op).at[u] == s.at[u] || (s.at[u] == Napping && Next(s, t, op).at[u] == Again)
  {
    hide Mutex.Next;
  }

  lemma MutexKeeps(m: State, t: Tid, u: Tid, g: Stage)
    requires t in m.pc && u in m.pc && u != t && Agrees(g, m.pc[u])
    ensures Mutex.Next(m, t, CallLock).pc.Keys == m.pc.Keys
    ensures Agrees(g, Mutex.Next(m, t, CallLock).pc[u])
  {
  }

  lemma StepAgrees(s: Sem, t: Tid, op: Op)
    requires t in s.at && t in s.mu.pc && Agrees(s.at[t], s.mu.pc[t])
    requires s.mu.pc[t] == Unlock ==> s.mu.word == 1 || s.mu.word == 2
    ensures t in Next(s, t, op).mu.pc
    ensures Agrees(Next(s, t, op).at[t], Next(s, t, op).mu.pc[t])
  {
  }

  lemma UnlockSees(m: State, t: Tid, h: Option<Tid>)
    requires Inv(m, h) && At(m, t, Unlock)
    ensures m.word == 1 || m.word == 2
  {
    assert Holder(m, t);
  }

  lemma AgainAgrees(p: Pc)
    ensures Agrees(Napping, p) <==> Agrees(Again, p)
  {
  }

  lemma MutexKeys(m: State, t: Tid)
    requires t in m.pc
    ensures Mutex.Next(m, t, CallLock).pc.Keys == m.pc.Keys
  {
  }

  /** Every step keeps the stages in step with the mutex, and the mutex safe. */
  lemma StepInStep(s: Sem, t: Tid, op: Op, h: Option<Tid>)
    requires Inv(s.mu, h) && InStep(s) && t in s.at
    ensures InStep(Next(s, t, op))
    ensures Inv(Next(s, t, op).mu, h) || Inv(Next(s, t, op).mu, After(h, EventOf(s.mu, t)))
  {
    hide Next, Mutex.Next, Agrees;
    StepSafe(s.mu, t, CallLock, h);
    StepShape(s, t, op);
    if s.mu.pc[t] == Unlock { UnlockSees(s.mu, t, h); }
    StepAgrees(s, t, op);
    forall u | u in s.at
      ensures u in Next(s, t, op).mu.pc && Agrees(Next(s, t, op).at[u], Next(s, t, op).mu.pc[u])
    {
      if u != t {
        MutexKeeps(s.mu, t, u, s.at[u]);
        AgainAgrees(s.mu.pc[u]);
        AgainAgrees(Mutex.Next(s.mu, t, CallLock).pc[u]);
      }
    }
    MutexKeys(s.mu, t);
  }

  /** Stages at which a thread is between its accesses to the value. */
  ghost predicate Inside(g: Stage) {
    g.Look? || g.Load? || g.Store? || g.Posted? || g.Waking?
  }

  /** Two threads inside the lock are one thread. */
  lemma OneInside(s: Sem, t: Tid, u: Tid, h: Option<Tid>)
    requires Inv(s.mu, h) && InStep(s) && t in s.at && u in s.at && Inside(s.at[t]) && Inside(s.at[u])
    ensures t == u
  {
    assert Agrees(s.at[t], s.mu.pc[t]) && Agrees(s.at[u], s.mu.pc[u]);
    assert Holder(s.mu, t) && Holder(s.mu, u);
  }

  /** Only a store changes the value, so nobody else has looked at it since. */
  lemma StepNothingStale(s: Sem, t: Tid, op: Op, h: Option<Tid>)
    requires Inv(s.mu, h) && InStep(s) && NothingStale(s) && s.value <= SEM_VALUE_MAX && t in s.at
    ensures NothingStale(Next(s, t, op))
  {
    hide Mutex.Next, Inv, InStep;
    InStepThreads(s, t);
    StepShape(s, t, op);
    assert UpToDate(s.at[t], s.value);
    var s1 := Next(s, t, op);
    forall u | u in s1.at
      ensures UpToDate(s1.at[u], s1.value)
    {
      if u != t && Inside(s.at[u]) && Inside(s.at[t]) { OneInside(s, t, u, h); }
    }
  }

  /** How a step changes the sets of calls that are about to return. */
  lemma ReturningStep(s: Sem, t: Tid, op: Op, post: bool)
    requires t in s.at && t in s.mu.pc
    ensures var s1 := Next(s, t, op);
      && t in s1.at
      && (Changed(s1.at[t], post) && !Changed(s.at[t], post) ==> |Returning(s1, post)| == |Returning(s, post)| + 1)
      && (!Changed(s1.at[t], post) && Changed(s.at[t], post) ==> |Returning(s1, post)| == |Returning(s, post)| - 1)
      && ((Changed(s1.at[t], post) <==> Changed(s.at[t], post)) ==> |Returning(s1, post)| == |Returning(s, post)|)
  {
    hide Next;
    StepShape(s, t, op);
    var s1 := Next(s, t, op);
    assert Returning(s1, post) - {t} == Returning(s, post) - {t};
    hide Changed;
    OneApart(Returning(s, post), Returning(s1, post), t);
  }

  lemma OneApart(a: set<Tid>, b: set<Tid>, t: Tid)
    requires a - {t} == b - {t}
    ensures |b| == |a| + (if t in b then 1 else 0) - (if t in a then 1 else 0)
  {
    assert t in a ==> a == (a - {t}) + {t};
    assert t in b ==> b == (b - {t}) + {t};
  }

  /** What a step does to the value, the threads about to return and the finished calls. */
  lemma StepTally(s: Sem, t: Tid, op: Op)
    requires t in s.at && t in s.mu.pc && UpToDate(s.at[t], s.value)
    ensures var s1, g := Next(s, t, op), s.at[t];
      && t in s1.at
      && s1.value == s.value + (if g.Store? then if g.op == Post then 1 else -1 else 0)
      && (s1.done == s.done ==>
        && (Changed(s1.at[t], true) <==> Changed(g, true) || (g.Store? && g.op == Post))
        && (Changed(s1.at[t], false) <==> Changed(g, false) || (g.Store? && g.op != Post)))
      && (s1.done != s.done ==>
        && g.Unlocking? && g.next.Return? && s1.done == s.done + [Call(t, g.next.op, g.next.code, g.next.saw)]
        && s1.at[t] == Out)
  {
    hide Mutex.Next;
  }

  lemma SuccessesMore(done: seq<Call>, c: Call, post: bool)
    ensures Successes(done + [c], post) == Successes(done, post) + if c.code == Zero && (c.op == Post <==> post) then 1 else 0
  {
    assert (done + [c])[..|done|] == done;
  }

  /** A store is one up or down from the value, because what was loaded is not stale. */
  lemma StepBalanced(s: Sem, t: Tid, op: Op, init: nat)
    requires t in s.at && t in s.mu.pc && NothingStale(s) && Balanced(s, init)
    ensures Balanced(Next(s, t, op), init)
  {
    hide Next, Returning, Successes;
    assert UpToDate(s.at[t], s.value);
    StepTally(s, t, op);
    ReturningStep(s, t, op, true);
    ReturningStep(s, t, op, false);
    var g := s.at[t];
    if Next(s, t, op).done != s.done {
      SuccessesMore(s.done, Call(t, g.next.op, g.next.code, g.next.saw), true);
      SuccessesMore(s.done, Call(t, g.next.op, g.next.code, g.next.saw), false);
    }
  }

  lemma StepNoLostPost(s: Sem, t: Tid, op: Op, h: Option<Tid>)
    requires Inv(s.mu, h) && InStep(s) && NothingStale(s) && NoLostPost(s) && t in s.at
    ensures NoLostPost(Next(s, t, op))
  {
    hide Mutex.Next, Inv, InStep;
    InStepThreads(s, t);
    assert UpToDate(s.at[t], s.value);
    var s1 := Next(s, t, op);
    if v :| Stands(s1, v, Napping) && s1.value > 0 {
      assert Stands(s, v, Napping);
      if s.value == 0 {
        assert WillWake(s1, t);
      } else {
        var u :| WillWake(s, u);
        if Inside(s.at[t]) { OneInside(s, t, u, h); }
        assert WillWake(s1, u);
      }
    }
  }

  lemma StepGood(s: Sem, t: Tid, op: Op, init: nat, h: Option<Tid>) returns (g: Option<Tid>)
    requires Good(s, init, h) && t in s.at
    ensures Good(Next(s, t, op), init, g)
  {
    hide Next, Inv, InStep, NothingStale, Returning, Successes, NoLostPost;
    InStepThreads(s, t);
    StepInStep(s, t, op, h);
    StepNothingStale(s, t, op, h);
    StepBalanced(s, t, op, init);
    StepNoLostPost(s, t, op, h);
    g := if Inv(Next(s, t, op).mu, h) then h else After(h, EventOf(s.mu, t));
  }

  lemma InStepThreads(s: Sem, t: Tid)
    requires InStep(s) && t in s.at
    ensures t in s.mu.pc
  {
  }

  // --- Whole runs ---

  datatype Move = Move(t: Tid, op: Op)

  ghost predicate Fresh(s: Sem) {
    && SameThreads(s) && Init(s.mu) && s.value <= SEM_VALUE_MAX && s.done == []
    && forall t :: t in s.at ==> s.at[t] == Out
  }

  /** The state after a schedule; moves of unknown threads do nothing. */
  function Run(s: Sem, moves: seq<Move>): Sem {
    if moves == [] then s
    else
      var r, c := Run(s, moves[..|moves| - 1]), moves[|moves| - 1];
      if c.t in r.at && c.t in r.mu.pc then Next(r, c.t, c.op) else r
  }

  lemma NobodyReturns(s: Sem, post: bool)
    requires forall t :: t in s.at ==> !Changed(s.at[t], post)
    ensures Returning(s, post) == {}
  {
  }

  lemma {:induction false} RunGood(s: Sem, moves: seq<Move>) returns (h: Option<Tid>)
    requires Fresh(s)
    ensures Good(Run(s, moves), s.value, h)
  {
    if moves == [] {
      InitSafe(s.mu);
      h := None;
    } else {
      hide Good, Next;
      var c := moves[|moves| - 1];
      h := RunGood(s, moves[..|moves| - 1]);
      var r := Run(s, moves[..|moves| - 1]);
      if c.t in r.at && c.t in r.mu.pc { h := StepGood(r, c.t, c.op, s.value, h); }
    }
  }

  /** Conservation, whatever the schedule: the value is the initial one, plus the posts that
      returned 0, less the waits that did, but for calls that are on their way out. */
  lemma Conservation(s: Sem, moves: seq<Move>)
    requires Fresh(s)
    ensures var r := Run(s, moves);
      && r.value + Successes(r.done, false) + |Returning(r, false)| == s.value + Successes(r.done, true) + |Returning(r, true)|
      && 0 <= r.value <= 2147483647
      && ((forall t :: t in r.at ==> r.at[t] == Out) ==> r.value + Successes(r.done, false) == s.value + Successes(r.done, true))
  {
    var h := RunGood(s, moves);
    var r := Run(s, moves);
    if forall t :: t in r.at ==> r.at[t] == Out {
      NobodyReturns(r, true);
      NobodyReturns(r, false);
    }
  }

  /** Whatever the schedule, every finished call returned what the value it tested demands. */
  lemma CallsJustified(s: Sem, moves: seq<Move>, i: nat)
    requires Fresh(s) && i < |Run(s, moves).done|
    ensures var c := Run(s, moves).done[i];
      && (c.op == Post ==> c.saw <= 2147483647 && (c.code == ERange <==> c.saw == 2147483647) && (c.code == Zero <==> c.saw < 2147483647))
      && (c.op == TryWait ==> (c.code == EAgain <==> c.saw == 0) && (c.code == Zero <==> c.saw > 0))
      && (c.op == Wait ==> c.code == Zero && c.saw > 0)
  {
    var h := RunGood(s, moves);
  }

  /** Whatever the schedule, a thread asleep while units are available is about to be
      woken: by a thread that holds the lock and goes on to wake it. */
  lemma SleepersAreWoken(s: Sem, moves: seq<Move>, t: Tid)
    requires Fresh(s) && Stands(Run(s, moves), t, Napping) && Run(s, moves).value > 0
    ensures exists u :: WillWake(Run(s, moves), u) && Holder(Run(s, moves).mu, u)
  {
    var h := RunGood(s, moves);
    var r := Run(s, moves);
    var u :| WillWake(r, u);
    assert Agrees(r.at[u], r.mu.pc[u]);
  }

  /** A thread that will wake the sleepers does so in its next two steps. */
  lemma WakerWakes(s: Sem, u: Tid, op: Op)
    requires u in s.at && u in s.mu.pc && WillWake(s, u)
    ensures var r := if s.at[u].Waking? then Next(s, u, op) else Next(Next(s, u, op), u, op);
      forall t :: !Stands(r, t, Napping)
  {
  }
}
