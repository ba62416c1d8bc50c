/** The futex mutex as a step relation over any number of threads. Each step is one atomic action on the
    lock word, or one futex call. */
module Mutex {
  /** Where a thread is in ss_mutex_lock, ss_mutex_trylock or ss_mutex_unlock, named by what it does next. */
  datatype Pc =
    | Idle
    | Cas          // lock: compare-and-exchange 0 -> 1
    | Xchg         // lock: exchange with 2
    | Wait         // lock: futex_wait (lockp, 2)
    | Asleep       // lock: queued in the kernel
    | TryCas       // trylock: compare-and-exchange 0 -> 1
    | Holding      // between lock and unlock; next is unlock's decrement
    | Store        // unlock: there are waiters, store 0
    | Wake         // unlock: futex_wake (lockp, 1)

  datatype State = State(word: int, pc: seq<Pc>)

  /** Advance performs the next action of thread t; when that is futex_wake, woken is the thread woken, or -1
      if nobody sleeps. Spurious is a futex_wait that returns without having been woken. */
  datatype Action = Lock(t: int) | Try(t: int) | Advance(t: int, woken: int) | Spurious(t: int)

  predicate SomeoneAt(s: State, p: Pc) {
    exists t :: 0 <= t < |s.pc| && s.pc[t] == p
  }

  predicate Enabled(s: State, a: Action) {
    && 0 <= a.t < |s.pc|
    && match a
       case Lock(t) => s.pc[t] == Idle
       case Try(t) => s.pc[t] == Idle
       case Spurious(t) => s.pc[t] == Asleep || s.pc[t] == Wait
       case Advance(t, woken) =>
         && s.pc[t] != Idle && s.pc[t] != Asleep
         && (s.pc[t] == Wake ==>
               if SomeoneAt(s, Asleep) then 0 <= woken < |s.pc| && s.pc[woken] == Asleep else woken == -1)
  }

  function At(s: State, t: int, p: Pc): State
    requires 0 <= t < |s.pc|
  {
    s.(pc := s.pc[t := p])
  }

  function Do(s: State, a: Action): State
    requires Enabled(s, a)
  {
    match a
    case Lock(t) => At(s, t, Cas)
    case Try(t) => At(s, t, TryCas)
    case Spurious(t) => At(s, t, Xchg)
    case Advance(t, woken) =>
      match s.pc[t]
      case Cas =>
        if s.word == 0 then At(s, t, Holding).(word := 1)
        else if s.word != 2 then At(s, t, Xchg)
        else At(s, t, Wait)
      case Xchg => At(s, t, if s.word == 0 then Holding else Wait).(word := 2)
      case Wait => At(s, t, if s.word == 2 then Asleep else Xchg)
      case TryCas => if s.word == 0 then At(s, t, Holding).(word := 1) else At(s, t, Idle)
      case Holding => At(s, t, if s.word - 1 == 0 then Idle else Store).(word := s.word - 1)
      case Store => At(s, t, Wake).(word := 0)
      case Wake => if woken == -1 then At(s, t, Idle) else At(At(s, t, Idle), woken, Xchg)
  }

  function Init(n: nat): State {
    State(0, seq(n, _ => Idle))
  }

  /** s can be reached from the unlocked state of n threads by the actions acts. */
  ghost predicate Reaches(n: nat, acts: seq<Action>, s: State) {
    if acts == [] then s == Init(n)
    else
      var last := |acts| - 1;
      exists r :: Reaches(n, acts[..last], r) && Enabled(r, acts[last]) && s == Do(r, acts[last])
  }

  /* ---------- safety ---------- */

  /** Threads that own the lock word: the holder, or an unlocker that has not yet stored 0. */
  predicate Owns(p: Pc) {
    p == Holding || p == Store
  }

  ghost predicate AtMostOneOwner(s: State) {
    forall t, u | 0 <= t < |s.pc| && 0 <= u < |s.pc| && Owns(s.pc[t]) && Owns(s.pc[u]) :: t == u
  }

  /** The lock word is nonzero exactly when some thread owns it. */
  ghost predicate WordMatches(s: State) {
    && 0 <= s.word <= 2
    && (s.word != 0 <==> exists t :: 0 <= t < |s.pc| && Owns(s.pc[t]))
  }

  /** While a thread sleeps, the word is 2 with a live holder, or an unlocker has its store or wake-up
      pending, or some thread is about to exchange the word to 2. */
  ghost predicate WakeUpDue(s: State) {
    SomeoneAt(s, Asleep) ==>
      (s.word == 2 && SomeoneAt(s, Holding)) || SomeoneAt(s, Store) || SomeoneAt(s, Wake) || SomeoneAt(s, Xchg)
  }

  ghost predicate Inv(s: State) {
    AtMostOneOwner(s) && WordMatches(s) && WakeUpDue(s)
  }

  lemma InitInv(n: nat)
    ensures Inv(Init(n))
  {
  }

  /** A step moves one thread; of the others it moves at most one sleeper. */
  lemma OthersStay(s: State, a: Action)
    requires Enabled(s, a)
    ensures |Do(s, a).pc| == |s.pc|
    ensures forall u | 0 <= u < |s.pc| && u != a.t && s.pc[u] != Asleep :: Do(s, a).pc[u] == s.pc[u]
    ensures forall u | 0 <= u < |s.pc| && u != a.t && s.pc[u] == Asleep ::
              Do(s, a).pc[u] == Asleep || Do(s, a).pc[u] == Xchg
  {
  }

  lemma OwnersKept(s: State, a: Action)
    requires Inv(s) && Enabled(s, a)
    ensures AtMostOneOwner(Do(s, a)) && WordMatches(Do(s, a))
  {
    var s', t := Do(s, a), a.t;
    OthersStay(s, a);
    assert forall u | 0 <= u < |s.pc| && u != t :: Owns(s'.pc[u]) <==> Owns(s.pc[u]);
    assert Owns(s'.pc[t]) && !Owns(s.pc[t]) ==> s.word == 0;
    if !Owns(s.pc[t]) && !Owns(s'.pc[t]) && s.word != 0 {
      var u :| 0 <= u < |s.pc| && Owns(s.pc[u]);
      assert Owns(s'.pc[u]);
    }
    if Owns(s'.pc[t]) {
      assert s'.word != 0;
    }
  }

  lemma WakeUpKept(s: State, a: Action)
    requires Inv(s) && Enabled(s, a)
    ensures WakeUpDue(Do(s, a))
  {
    var s', t := Do(s, a), a.t;
    OthersStay(s, a);
    if SomeoneAt(s', Asleep) {
      var z :| 0 <= z < |s'.pc| && s'.pc[z] == Asleep;
      if z == t || (s.pc[t] == Xchg && s.word != 0) {
        var h :| 0 <= h < |s.pc| && Owns(s.pc[h]);
        assert s'.pc[h] == s.pc[h];
      } else {
        assert s.pc[z] == Asleep;
        DueStays(s, a);
      }
    }
  }

  lemma DueStays(s: State, a: Action)
    requires Inv(s) && Enabled(s, a) && SomeoneAt(s, Asleep) && !(s.pc[a.t] == Xchg && s.word != 0)
    ensures WakeUpDue(Do(s, a))
  {
    var s', t := Do(s, a), a.t;
    OthersStay(s, a);
    var h :| 0 <= h < |s.pc|
        && ((s.word == 2 && s.pc[h] == Holding) || s.pc[h] == Store || s.pc[h] == Wake || s.pc[h] == Xchg);
    if h == t {
      assert s'.pc[t] == Store || s'.pc[t] == Wake || s'.pc[t] == Holding || s.pc[t] == Wake || a.Spurious?;
      if s.pc[t] == Wake {
        assert s'.pc[a.woken] == Xchg;
      }
    } else {
      assert s'.pc[h] == s.pc[h];
      assert s.word == 2 && s.pc[h] == Holding ==> s'.word == 2;
    }
  }

  lemma StepKeepsInv(s: State, a: Action)
    requires Inv(s) && Enabled(s, a)
    ensures Inv(Do(s, a))
  {
    OwnersKept(s, a);
    WakeUpKept(s, a);
  }

  /** Mutual exclusion and no lost wake-up in every state of every run of any number of threads. */
  lemma {:induction false} RunsKeepInv(n: nat, acts: seq<Action>, s: State)
    requires Reaches(n, acts, s)
    ensures Inv(s) && |s.pc| == n
  {
    if acts == [] {
      InitInv(n);
    } else {
      var last := |acts| - 1;
      var r :| Reaches(n, acts[..last], r) && Enabled(r, acts[last]) && s == Do(r, acts[last]);
      OthersStay(r, acts[last]);
      hide Inv, Do, Enabled;
      RunsKeepInv(n, acts[..last], r);
      StepKeepsInv(r, acts[last]);
    }
  }

  /** The plain store of 0 never erases another thread's acquisition: nobody else holds the lock then. */
  lemma StoreErasesNoAcquisition(n: nat, acts: seq<Action>, s: State, t: int, u: int)
    requires Reaches(n, acts, s) && 0 <= t < |s.pc| && 0 <= u < |s.pc| && t != u
    requires s.pc[t] == Store
    ensures s.pc[u] != Holding && s.pc[u] != Store && s.word != 0
  {
    RunsKeepInv(n, acts, s);
    assert AtMostOneOwner(s) && Owns(s.pc[t]);
  }

  /** Trylock succeeds exactly when nobody holds the lock or is still releasing it. */
  lemma TrySucceedsIfFree(n: nat, acts: seq<Action>, s: State, t: int)
    requires Reaches(n, acts, s) && 0 <= t < |s.pc| && s.pc[t] == TryCas
    ensures Do(s, Advance(t, -1)).pc[t] == Holding <==> !SomeoneAt(s, Holding) && !SomeoneAt(s, Store)
  {
    RunsKeepInv(n, acts, s);
    if s.word == 0 {
      assert forall u | 0 <= u < |s.pc| :: !Owns(s.pc[u]);
    } else {
      var u :| 0 <= u < |s.pc| && Owns(s.pc[u]);
      assert s.pc[u] == Holding || s.pc[u] == Store;
    }
  }

  /* ---------- what the calls return ---------- */

  /** Inside lock, without the lock. */
  predicate Locking(p: Pc) {
    p == Cas || p == Xchg || p == Wait || p == Asleep
  }

  /** Each call goes its own way: a thread in lock stays there until it takes the free lock, trylock takes it or returns
      according to the word, and the lock is only given up by its holder. */
  lemma StepsOfCalls(s: State, a: Action, t: int)
    requires Enabled(s, a) && 0 <= t < |s.pc|
    ensures |Do(s, a).pc| == |s.pc|
    ensures a == Lock(t) ==> Locking(Do(s, a).pc[t])
    ensures a == Try(t) ==> Do(s, a).pc[t] == TryCas
    ensures Locking(s.pc[t]) ==> Locking(Do(s, a).pc[t]) || (Do(s, a).pc[t] == Holding && s.word == 0)
    ensures s.pc[t] == TryCas && a.t == t ==> Do(s, a).pc[t] == (if s.word == 0 then Holding else Idle)
    ensures s.pc[t] == TryCas && a.t != t ==> Do(s, a).pc[t] == TryCas
    ensures s.pc[t] == Holding && a.t != t ==> Do(s, a).pc[t] == Holding
    ensures s.pc[t] == Idle && a.t != t ==> Do(s, a).pc[t] == Idle
  {
    hide SomeoneAt;
  }

  /** A run with all its states. */
  ghost predicate Trace(n: nat, acts: seq<Action>, states: seq<State>) {
    && |states| == |acts| + 1 && states[0] == Init(n)
    && forall i | 0 <= i < |acts| :: StepAt(acts, states, i)
  }

  ghost predicate StepAt(acts: seq<Action>, states: seq<State>, i: nat)
    requires i < |acts| && |states| == |acts| + 1
  {
    Enabled(states[i], acts[i]) && states[i + 1] == Do(states[i], acts[i])
  }

  lemma {:induction false} TraceReaches(n: nat, acts: seq<Action>, states: seq<State>, i: nat)
    requires Trace(n, acts, states) && i <= |acts|
    ensures Reaches(n, acts[..i], states[i])
  {
    if i > 0 {
      hide Enabled, Do;
      TraceReaches(n, acts, states, i - 1);
      assert StepAt(acts, states, i - 1);
      var past := acts[..i];
      assert past[..i - 1] == acts[..i - 1] && past[i - 1] == acts[i - 1];
    }
  }

  /** The time in i, ..., j - 1 at which the thread first leaves the waiting part of lock. */
  lemma {:induction false} LeavesLocking(n: nat, acts: seq<Action>, states: seq<State>, t: int, i: nat, j: nat)
    returns (k: nat)
    requires Trace(n, acts, states) && 0 <= t < n && i < j <= |acts|
    requires t < |states[i].pc| && Locking(states[i].pc[t])
    requires t < |states[j].pc| && !Locking(states[j].pc[t])
    ensures i < k <= j && t < |states[k].pc| && states[k].pc[t] == Holding && states[k - 1].word == 0
    decreases j - i
  {
    assert StepAt(acts, states, i);
    StepsOfCalls(states[i], acts[i], t);
    hide Do, Enabled;
    if Locking(states[i + 1].pc[t]) {
      k := LeavesLocking(n, acts, states, t, i + 1, j);
    } else {
      k := i + 1;
    }
  }

  /** Lock returns holding the lock: in every run, between a call of lock and the next time its thread is idle, the
      thread held the lock, which it took while it was free and nobody else held it. */
  lemma LockReturnsHolding(n: nat, acts: seq<Action>, states: seq<State>, t: int, i: nat, j: nat) returns (k: nat)
    requires Trace(n, acts, states) && i < j <= |acts| && acts[i] == Lock(t)
    requires 0 <= t < |states[j].pc| && states[j].pc[t] == Idle
    ensures i < k < j && t < |states[k].pc| && states[k].pc[t] == Holding && states[k - 1].word == 0
    ensures forall u | 0 <= u < |states[k].pc| && u != t :: !Owns(states[k].pc[u])
  {
    assert StepAt(acts, states, i);
    TraceReaches(n, acts, states, j);
    RunsKeepInv(n, acts[..j], states[j]);
    StepsOfCalls(states[i], acts[i], t);
    hide Do, Enabled, Reaches;
    assert Locking(states[i + 1].pc[t]);
    k := LeavesLocking(n, acts, states, t, i + 1, j);
    TraceReaches(n, acts, states, k);
    RunsKeepInv(n, acts[..k], states[k]);
    assert Owns(states[k].pc[t]);
  }

  ghost predicate OwnedByOther(s: State, t: int) {
    exists u :: 0 <= u < |s.pc| && u != t && Owns(s.pc[u])
  }

  /** Trylock returns without the lock only if the word was not 0, that is, if another thread owned it. */
  lemma {:induction false} TryReturns(n: nat, acts: seq<Action>, states: seq<State>, t: int, i: nat, j: nat)
    returns (k: nat)
    requires Trace(n, acts, states) && i < j <= |acts|
    requires 0 <= t < |states[i].pc| && states[i].pc[t] == TryCas
    requires t < |states[j].pc| && states[j].pc[t] == Idle
    ensures i < k <= j && |states[k].pc| == |states[k - 1].pc| == n > t && states[k - 1].pc[t] == TryCas
    ensures if states[k].pc[t] == Holding then states[k - 1].word == 0
            else states[k].pc[t] == Idle && OwnedByOther(states[k - 1], t)
    decreases j - i
  {
    assert StepAt(acts, states, i);
    StepsOfCalls(states[i], acts[i], t);
    TraceReaches(n, acts, states, i);
    RunsKeepInv(n, acts[..i], states[i]);
    hide Do, Enabled, Reaches;
    if states[i + 1].pc[t] == TryCas {
      k := TryReturns(n, acts, states, t, i + 1, j);
    } else {
      k := i + 1;
    }
  }

  /** A thread alone never makes a futex call: lock and unlock stay within their first atomic operation. */
  lemma {:induction false} AloneNeedsNoFutex(acts: seq<Action>, s: State)
    requires Reaches(1, acts, s)
    ensures |s.pc| == 1 && s.word == (if s.pc[0] == Holding then 1 else 0)
    ensures s.pc[0] == Idle || s.pc[0] == Cas || s.pc[0] == TryCas || s.pc[0] == Holding
  {
    if acts != [] {
      var last := |acts| - 1;
      var r :| Reaches(1, acts[..last], r) && Enabled(r, acts[last]) && s == Do(r, acts[last]);
      AloneNeedsNoFutex(acts[..last], r);
    }
  }

  /* ---------- every waiter is served ---------- */

  /** Steps left to a thread: large while it has not got the lock, 0 when it is done. */
  function Stage(p: Pc): nat {
    match p
    case Idle => 0
    case Wake => 1
    case Store => 2
    case Holding => 3
    case _ => 4
  }

  /** How far a waiting thread is from sleeping; the word is 2 once any thread has exchanged it. */
  function Restless(p: Pc, two: bool): nat {
    match p
    case Cas => if two then 3 else 5
    case Wait => if two then 1 else 4
    case Xchg => if two then 2 else 3
    case _ => 0
  }

  function Weight(p: Pc, two: bool, n: nat): nat {
    Stage(p) * (5 * n + 1) + Restless(p, two)
  }

  function Sum(pc: seq<Pc>, two: bool, n: nat): nat {
    if pc == [] then 0 else Weight(pc[0], two, n) + Sum(pc[1..], two, n)
  }

  /** A bound on the number of steps until everybody is done, without new calls and spurious returns. */
  function Bound(s: State): nat {
    Sum(s.pc, s.word == 2, |s.pc|)
  }

  lemma {:induction false} SumUpdate(pc: seq<Pc>, two: bool, n: nat, t: nat, p: Pc)
    requires t < |pc|
    ensures Sum(pc[t := p], two, n) + Weight(pc[t], two, n) == Sum(pc, two, n) + Weight(p, two, n)
  {
    if t > 0 {
      SumUpdate(pc[1..], two, n, t - 1, p);
      assert pc[t := p][1..] == pc[1..][t - 1 := p];
    }
  }

  /** Exchanging the word to 2 makes nobody more restless; any other change of the word adds at most 5 for each
      thread. */
  lemma {:induction false} SumTwo(pc: seq<Pc>, n: nat)
    ensures Sum(pc, true, n) <= Sum(pc, false, n) <= Sum(pc, true, n) + 5 * |pc|
  {
    if pc != [] {
      SumTwo(pc[1..], n);
    }
  }

  /** The steps other than new calls and spurious returns. */
  predicate Quiet(a: Action) {
    a.Advance?
  }

  /** One stage weighs more than all the restlessness there can be. */
  lemma StageDrop(p: Pc, q: Pc, two: bool, n: nat)
    requires Stage(q) < Stage(p)
    ensures Weight(q, two, n) + 5 * n + 1 <= Weight(p, two, n)
  {
    var k := 5 * n + 1;
    assert Stage(q) * k + k <= Stage(p) * k by {
      assert (Stage(p) - Stage(q)) * k >= k;
    }
  }

  /** The bound when thread t goes on to q and the word changes as well. */
  lemma BoundAfter(s: State, s': State, t: nat, q: Pc)
    requires t < |s.pc| && s'.pc == s.pc[t := q]
    ensures var n, two, two' := |s.pc|, s.word == 2, s'.word == 2;
            && Bound(s') + Weight(s.pc[t], two', n) == Sum(s.pc, two', n) + Weight(q, two', n)
            && Sum(s.pc, two', n) <= Bound(s) + (if two && !two' then 5 * n else 0)
  {
    SumUpdate(s.pc, s'.word == 2, |s.pc|, t, q);
    SumTwo(s.pc, |s.pc|);
  }

  /** A thread that leaves its stage. */
  lemma StageDescends(s: State, s': State, t: nat, q: Pc)
    requires t < |s.pc| && s'.pc == s.pc[t := q] && Stage(q) < Stage(s.pc[t])
    ensures Bound(s') < Bound(s)
  {
    hide Sum, Weight, Stage, Bound;
    BoundAfter(s, s', t, q);
    StageDrop(s.pc[t], q, s'.word == 2, |s.pc|);
  }

  /** A thread that stays in its stage and gets nearer to sleep. */
  lemma RestDescends(s: State, s': State, t: nat, q: Pc)
    requires t < |s.pc| && s'.pc == s.pc[t := q] && (s.word == 2 ==> s'.word == 2)
    requires Stage(q) == Stage(s.pc[t]) && Restless(q, s'.word == 2) < Restless(s.pc[t], s'.word == 2)
    ensures Bound(s') < Bound(s)
  {
    hide Sum, Stage, Restless, Bound;
    BoundAfter(s, s', t, q);
  }

  /** The end of an unlock, which may make a sleeper restless. */
  lemma WakeDescends(s: State, t: nat, woken: int)
    requires t < |s.pc| && s.pc[t] == Wake && woken != t
    requires woken == -1 || (0 <= woken < |s.pc| && s.pc[woken] == Asleep)
    ensures Bound(if woken == -1 then At(s, t, Idle) else At(At(s, t, Idle), woken, Xchg)) < Bound(s)
  {
    hide Sum, Bound;
    var two, n := s.word == 2, |s.pc|;
    var s1 := At(s, t, Idle);
    BoundAfter(s, s1, t, Idle);
    StageDrop(Wake, Idle, two, n);
    if woken != -1 {
      BoundAfter(s1, At(s1, woken, Xchg), woken, Xchg);
      assert Weight(Xchg, two, n) <= Weight(Asleep, two, n) + 3;
    }
  }

  lemma QuietDescends(s: State, a: Action)
    requires Inv(s) && Enabled(s, a) && Quiet(a)
    ensures Bound(Do(s, a)) < Bound(s)
  {
    hide Bound, Inv, SomeoneAt;
    var s', t := Do(s, a), a.t;
    if s.pc[t] == Wake {
      WakeDescends(s, t, a.woken);
    } else if Stage(s'.pc[t]) < Stage(s.pc[t]) {
      StageDescends(s, s', t, s'.pc[t]);
    } else {
      RestDescends(s, s', t, s'.pc[t]);
    }
  }

  /** A run of consecutive quiet steps. */
  ghost predicate QuietRun(run: seq<State>) {
    && |run| > 0
    && forall i | 0 <= i < |run| - 1 :: QuietStep(run[i], run[i + 1])
  }

  ghost predicate QuietStep(s: State, s': State) {
    exists a :: Enabled(s, a) && Quiet(a) && s' == Do(s, a)
  }

  /** Without new calls and spurious returns every run ends. */
  lemma {:induction false} QuietRunsEnd(run: seq<State>)
    requires QuietRun(run) && Inv(run[0])
    ensures |run| <= Bound(run[0]) + 1
  {
    if |run| > 1 {
      assert QuietStep(run[0], run[0 + 1]);
      var a :| Enabled(run[0], a) && Quiet(a) && run[1] == Do(run[0], a);
      StepKeepsInv(run[0], a);
      QuietDescends(run[0], a);
      hide Inv, Bound, Do, Enabled, QuietStep;
      var rest := run[1..];
      forall i | 0 <= i < |rest| - 1
        ensures QuietStep(rest[i], rest[i + 1])
      {
        assert QuietStep(run[i + 1], run[i + 1 + 1]);
      }
      QuietRunsEnd(rest);
    }
  }

  /** And it ends only with every thread idle: nobody sleeps for ever. */
  lemma StopsOnlyWhenAllIdle(s: State)
    requires Inv(s) && forall a :: Quiet(a) ==> !Enabled(s, a)
    ensures forall t | 0 <= t < |s.pc| :: s.pc[t] == Idle
    ensures s.word == 0
  {
    forall t | 0 <= t < |s.pc|
      ensures s.pc[t] == Idle || s.pc[t] == Asleep
    {
      if SomeoneAt(s, Asleep) {
        var z :| 0 <= z < |s.pc| && s.pc[z] == Asleep;
        assert Quiet(Advance(t, z));
      } else {
        assert Quiet(Advance(t, -1));
      }
    }
    assert !SomeoneAt(s, Holding) && !SomeoneAt(s, Store) && !SomeoneAt(s, Wake) && !SomeoneAt(s, Xchg);
    forall t | 0 <= t < |s.pc|
      ensures s.pc[t] == Idle
    {
      assert s.pc[t] == Asleep ==> SomeoneAt(s, Asleep);
    }
  }

  /** So when a run can go on only by new calls and spurious returns, every call of lock has been served. */
  lemma EveryLockServed(n: nat, acts: seq<Action>, states: seq<State>, t: int, i: nat) returns (k: nat)
    requires Trace(n, acts, states) && i < |acts| && acts[i] == Lock(t)
    requires forall a :: Quiet(a) ==> !Enabled(states[|acts|], a)
    ensures i < k < |acts| && 0 <= t < |states[k].pc| && states[k].pc[t] == Holding
  {
    var j := |acts|;
    TraceReaches(n, acts, states, j);
    assert acts[..j] == acts;
    RunsKeepInv(n, acts, states[j]);
    StopsOnlyWhenAllIdle(states[j]);
    TraceReaches(n, acts, states, i);
    RunsKeepInv(n, acts[..i], states[i]);
    assert StepAt(acts, states, i);
    hide Do, Inv, Reaches, Trace;
    k := LockReturnsHolding(n, acts, states, t, i, j);
  }
}
