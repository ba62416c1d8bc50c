/** The recursive mutex: owner and count are changed under a meta-lock, waiters sleep on count. Each step is
    one write to owner or count, one operation on the meta-lock, or one futex call. The meta-lock is a
    mutex, of which module Mutex proves mutual exclusion; here it is held by one thread or free. */
module RecursiveMutex {
  const NIL: int := -1

  /** Where a thread is, named by what it does next. */
  datatype Pc =
    | Out                          // outside; may hold the lock
    | LockWant | LockIn            // lock: take the meta-lock; look at the owner
    | Claimed                      // lock, trylock: count is 1, set the owner
    | Leave                        // lock, trylock: release the meta-lock and return
    | WaitLeave(v: int)            // lock: release the meta-lock, then wait
    | WaitCall(v: int)             // lock: futex_wait (&count, v)
    | Asleep
    | UnlockWant | UnlockIn        // unlock: take the meta-lock; change the count
    | UnlockZero(waiters: bool)    // unlock: count is 0, clear the owner
    | UnlockLeave(wake: bool)      // unlock: release the meta-lock
    | WakeCall                     // unlock: futex_wake (&count, 1)
    | TryAsk | TryIn               // trylock: try the meta-lock; look at the owner

  /** depth[t] counts the lock calls thread t has not yet unlocked. */
  datatype State = State(meta: int, owner: int, count: int, pc: seq<Pc>, depth: seq<int>)

  /** Advance performs the next action of thread t; when that is futex_wake, woken is the thread woken, or
      NIL if nobody sleeps. Spurious is a futex_wait that returns without having been woken. */
  datatype Action = Lock(t: int) | Unlock(t: int) | Try(t: int) | Advance(t: int, woken: int) | Spurious(t: int)

  ghost predicate Shaped(s: State) {
    |s.depth| == |s.pc| && -1 <= s.meta < |s.pc| && -1 <= s.owner < |s.pc|
  }

  ghost predicate SomeoneSleeps(s: State) {
    exists z :: 0 <= z < |s.pc| && s.pc[z] == Asleep
  }

  ghost predicate Enabled(s: State, a: Action) {
    && Shaped(s) && 0 <= a.t < |s.pc|
    && match a
       case Lock(t) => s.pc[t] == Out
       case Try(t) => s.pc[t] == Out
       case Unlock(t) => s.pc[t] == Out && s.depth[t] > 0
       case Spurious(t) => s.pc[t] == Asleep || s.pc[t].WaitCall?
       case Advance(t, woken) =>
         && s.pc[t] != Out && s.pc[t] != Asleep
         && (s.pc[t] == LockWant || s.pc[t] == UnlockWant ==> s.meta == NIL)
         && (s.pc[t] == WakeCall ==>
               if SomeoneSleeps(s) then 0 <= woken < |s.pc| && s.pc[woken] == Asleep else woken == NIL)
  }

  function At(s: State, t: int, p: Pc): State
    requires 0 <= t < |s.pc|
  {
    s.(pc := s.pc[t := p])
  }

  function Deeper(s: State, t: int, n: int): State
    requires 0 <= t < |s.depth|
  {
    s.(depth := s.depth[t := s.depth[t] + n])
  }

  /** count one further from 0, and one closer to 0 */
  function Away(count: int): int {
    if count > 0 then count + 1 else count - 1
  }

  function Back(count: int): int {
    if count > 0 then count - 1 else count + 1
  }

  ghost function Do(s: State, a: Action): State
    requires Enabled(s, a)
  {
    match a
    case Lock(t) => At(s, t, LockWant)
    case Try(t) => At(s, t, TryAsk)
    case Unlock(t) => At(s, t, UnlockWant)
    case Spurious(t) => At(s, t, LockWant)
    case Advance(t, woken) =>
      match s.pc[t]
      case LockWant => At(s, t, LockIn).(meta := t)
      case LockIn =>
        if s.owner == t then Deeper(At(s, t, Leave), t, 1).(count := Away(s.count))
        else if s.owner == NIL then At(s, t, Claimed).(count := 1)
        else var v := if s.count > 0 then -s.count else s.count; At(s, t, WaitLeave(v)).(count := v)
      case Claimed => Deeper(At(s, t, Leave), t, 1).(owner := t)
      case Leave => At(s, t, Out).(meta := NIL)
      case WaitLeave(v) => At(s, t, WaitCall(v)).(meta := NIL)
      case WaitCall(v) => At(s, t, if s.count == v then Asleep else LockWant)
      case UnlockWant => At(s, t, UnlockIn).(meta := t)
      case UnlockIn =>
        var next := if Back(s.count) == 0 then UnlockZero(s.count < 0) else UnlockLeave(false);
        Deeper(At(s, t, next), t, -1).(count := Back(s.count))
      case UnlockZero(waiters) => At(s, t, UnlockLeave(waiters)).(owner := NIL)
      case UnlockLeave(wake) => At(s, t, if wake then WakeCall else Out).(meta := NIL)
      case WakeCall => if woken == NIL then At(s, t, Out) else At(At(s, t, Out), woken, LockWant)
      case TryAsk => if s.meta == NIL then At(s, t, TryIn).(meta := t) else At(s, t, Out)
      case TryIn =>
        if s.owner == t then Deeper(At(s, t, Leave), t, 1).(count := Away(s.count))
        else if s.owner == NIL then At(s, t, Claimed).(count := 1)
        else At(s, t, Out)
  }

  function Init(n: nat): State {
    State(NIL, NIL, 0, seq(n, _ => Out), seq(n, _ => 0))
  }

  /** s can be reached by n threads; unless tries holds, without any call of trylock. */
  ghost predicate Reaches(n: nat, tries: bool, acts: seq<Action>, s: State) {
    if acts == [] then s == Init(n)
    else
      var last := |acts| - 1;
      && (acts[last].Try? ==> tries)
      && exists r :: Reaches(n, tries, acts[..last], r) && Enabled(r, acts[last]) && s == Do(r, acts[last])
  }

  ghost predicate Reachable(n: nat, tries: bool, s: State) {
    exists acts :: Reaches(n, tries, acts, s)
  }

  lemma NextReachable(n: nat, tries: bool, s: State, a: Action)
    requires Reachable(n, tries, s) && Enabled(s, a) && (a.Try? ==> tries)
    ensures Reachable(n, tries, Do(s, a))
  {
    hide Do, Enabled;
    var acts :| Reaches(n, tries, acts, s);
    var more := acts + [a];
    assert more[..|more| - 1] == acts && more[|more| - 1] == a;
    assert Reaches(n, tries, more, Do(s, a));
  }

  /* ---------- safety ---------- */

  /** The thread is between taking and releasing the meta-lock. */
  predicate Inside(p: Pc) {
    || p == LockIn || p == Claimed || p == Leave || p.WaitLeave?
    || p == UnlockIn || p.UnlockZero? || p.UnlockLeave?
    || p == TryIn
  }

  predicate Waits(p: Pc) {
    p.WaitLeave? || p.WaitCall? || p == Asleep
  }

  ghost predicate ThreadOk(s: State, t: int) {
    0 <= t < |s.pc| && t < |s.depth| ==>
      && (Inside(s.pc[t]) ==> s.meta == t)
      && (s.pc[t] == UnlockWant || s.pc[t] == UnlockIn ==> s.depth[t] > 0)
      && (Waits(s.pc[t]) ==> s.depth[t] == 0)
      && (s.pc[t].WaitLeave? || s.pc[t].WaitCall? ==> s.pc[t].v < 0)
  }

  function Abs(x: int): int {
    if x < 0 then -x else x
  }

  /** Apart from the two places where a thread under the meta-lock has written one of the two fields, the owner
      is nil exactly when the count is 0, and the count's absolute value is the owner's nesting depth. */
  ghost predicate CountOk(s: State) {
    && Shaped(s)
    && (forall t :: 0 <= t < |s.pc| && (t != s.owner || MidChange(s)) ==> s.depth[t] == 0)
    && (if s.meta != NIL && s.pc[s.meta] == Claimed then s.owner == NIL && s.count == 1
        else if s.meta != NIL && s.pc[s.meta].UnlockZero? then s.owner == s.meta && s.count == 0
        else (s.owner == NIL <==> s.count == 0) && (s.owner != NIL ==> Abs(s.count) == s.depth[s.owner]))
  }

  ghost predicate MidChange(s: State)
    requires Shaped(s)
  {
    s.meta != NIL && (s.pc[s.meta] == Claimed || s.pc[s.meta].UnlockZero?)
  }

  ghost predicate Inv(s: State) {
    CountOk(s) && forall t :: ThreadOk(s, t)
  }

  lemma InitInv(n: nat)
    ensures Inv(Init(n))
  {
  }

  /** Steps that touch neither the meta-lock nor owner and count. */
  predicate Outside(a: Action, p: Pc) {
    !a.Advance? || p.WaitCall? || p == WakeCall
  }

  predicate Unlocking(p: Pc) {
    p == UnlockWant || p == UnlockIn || p.UnlockZero? || p.UnlockLeave?
  }

  lemma CountKeptOutside(s: State, a: Action)
    requires Inv(s) && Enabled(s, a) && Outside(a, s.pc[a.t])
    ensures CountOk(Do(s, a))
  {
    assert ThreadOk(s, a.t);
    var s' := Do(s, a);
    assert s'.meta == s.meta && s'.owner == s.owner && s'.count == s.count && s'.depth == s.depth && |s'.pc| == |s.pc|;
    assert s.meta != NIL ==>
        ThreadOk(s, s.meta) && (s'.pc[s.meta] == s.pc[s.meta] || (!Inside(s.pc[s.meta]) && !Inside(s'.pc[s.meta])));
  }

  lemma CountKeptUnlocking(s: State, a: Action)
    requires Inv(s) && Enabled(s, a) && a.Advance? && Unlocking(s.pc[a.t])
    ensures CountOk(Do(s, a))
  {
    assert ThreadOk(s, a.t);
  }

  lemma CountKeptLocking(s: State, a: Action)
    requires Inv(s) && Enabled(s, a) && !Outside(a, s.pc[a.t]) && !Unlocking(s.pc[a.t])
    ensures CountOk(Do(s, a))
  {
    assert ThreadOk(s, a.t);
  }

  lemma CountKept(s: State, a: Action)
    requires Inv(s) && Enabled(s, a)
    ensures CountOk(Do(s, a))
  {
    hide Inv, Do, CountOk;
    if Outside(a, s.pc[a.t]) {
      CountKeptOutside(s, a);
    } else if Unlocking(s.pc[a.t]) {
      CountKeptUnlocking(s, a);
    } else {
      CountKeptLocking(s, a);
    }
  }

  lemma OwnThreadKeptOutside(s: State, a: Action)
    requires Inv(s) && Enabled(s, a) && Outside(a, s.pc[a.t])
    ensures ThreadOk(Do(s, a), a.t)
  {
    assert ThreadOk(s, a.t);
    hide Away, Back, SomeoneSleeps;
  }

  lemma OwnThreadKeptLocking(s: State, a: Action)
    requires Inv(s) && Enabled(s, a) && !Outside(a, s.pc[a.t]) && !Unlocking(s.pc[a.t])
    ensures ThreadOk(Do(s, a), a.t)
  {
    assert ThreadOk(s, a.t);
    hide Away, Back, SomeoneSleeps;
  }

  lemma OwnThreadKeptUnlocking(s: State, a: Action)
    requires Inv(s) && Enabled(s, a) && a.Advance? && Unlocking(s.pc[a.t])
    ensures ThreadOk(Do(s, a), a.t)
  {
    assert ThreadOk(s, a.t);
    hide Away, Back, SomeoneSleeps;
  }

  /** Another thread does not move, unless it is a sleeper that is woken. */
  lemma OtherThreadStays(s: State, a: Action, u: int)
    requires Enabled(s, a) && u != a.t && 0 <= u < |s.pc|
    ensures var s' := Do(s, a);
            && |s'.pc| == |s.pc| && |s'.depth| == |s.pc| && s'.depth[u] == s.depth[u]
            && (s'.pc[u] == s.pc[u] || (s.pc[u] == Asleep && s'.pc[u] == LockWant))
  {
    hide Away, Back, SomeoneSleeps;
  }

  /** Only the thread that has the meta-lock, or takes it while it is free, changes who has it. */
  lemma MetaChanges(s: State, a: Action)
    requires Enabled(s, a) && ThreadOk(s, a.t)
    ensures Do(s, a).meta == s.meta || s.meta == NIL || s.meta == a.t
  {
    hide Away, Back, SomeoneSleeps;
  }

  lemma OtherThreadKept(s: State, a: Action, u: int)
    requires Inv(s) && Enabled(s, a) && u != a.t
    ensures ThreadOk(Do(s, a), u)
  {
    assert ThreadOk(s, u) && ThreadOk(s, a.t);
    MetaChanges(s, a);
    SameThreads(s, a);
    hide Do, Enabled, CountOk;
    if 0 <= u < |s.pc| {
      OtherThreadStays(s, a, u);
    }
  }

  lemma ThreadKept(s: State, a: Action, u: int)
    requires Inv(s) && Enabled(s, a)
    ensures ThreadOk(Do(s, a), u)
  {
    hide Inv, Do, ThreadOk;
    if u != a.t {
      OtherThreadKept(s, a, u);
    } else if a.Advance? && Unlocking(s.pc[a.t]) {
      OwnThreadKeptUnlocking(s, a);
    } else if Outside(a, s.pc[a.t]) {
      OwnThreadKeptOutside(s, a);
    } else {
      OwnThreadKeptLocking(s, a);
    }
  }

  lemma StepKeepsInv(s: State, a: Action)
    requires Inv(s) && Enabled(s, a)
    ensures Inv(Do(s, a))
  {
    CountKept(s, a);
    var s' := Do(s, a);
    hide CountOk, Enabled, Do;
    forall u ensures ThreadOk(s', u) {
      ThreadKept(s, a, u);
    }
  }

  lemma {:induction false} RunsKeepInv(n: nat, tries: bool, acts: seq<Action>, s: State)
    requires Reaches(n, tries, acts, s)
    ensures Inv(s) && |s.pc| == n
  {
    if acts == [] {
      InitInv(n);
    } else {
      var last := |acts| - 1;
      var r :| Reaches(n, tries, acts[..last], r) && Enabled(r, acts[last]) && s == Do(r, acts[last]);
      hide Inv, Do, Enabled;
      RunsKeepInv(n, tries, acts[..last], r);
      StepKeepsInv(r, acts[last]);
      SameThreads(r, acts[last]);
    }
  }

  lemma SameThreads(s: State, a: Action)
    requires Enabled(s, a)
    ensures |Do(s, a).pc| == |s.pc|
  {
  }

  /** Whenever the meta-lock is free, the owner is nil exactly when the count is 0, the absolute value of the
      count is the owner's nesting depth, and no other thread is inside. */
  lemma SafeWheneverMetaFree(n: nat, tries: bool, s: State)
    requires Reachable(n, tries, s) && s.meta == NIL
    ensures s.owner == NIL <==> s.count == 0
    ensures -1 <= s.owner < n == |s.depth|
    ensures s.owner != NIL ==> Abs(s.count) == s.depth[s.owner] > 0
    ensures forall t | 0 <= t < n && t != s.owner :: s.depth[t] == 0
  {
    ReachableInv(n, tries, s);
  }

  /** At all times at most one thread holds the lock, and at most one is inside the meta-lock. */
  lemma MutualExclusion(n: nat, tries: bool, s: State, t: int, u: int)
    requires Reachable(n, tries, s) && 0 <= t < u < |s.pc|
    ensures |s.depth| == |s.pc| && !(s.depth[t] > 0 && s.depth[u] > 0) && !(Inside(s.pc[t]) && Inside(s.pc[u]))
  {
    ReachableInv(n, tries, s);
    assert ThreadOk(s, t) && ThreadOk(s, u);
  }

  /** The assertions in lock, unlock and trylock never fail. */
  lemma AssertionsHold(n: nat, tries: bool, s: State, t: int)
    requires Reachable(n, tries, s) && 0 <= t < |s.pc|
    ensures s.pc[t] == LockIn || s.pc[t] == TryIn ==> (s.owner == NIL <==> s.count == 0)
    ensures s.pc[t] == UnlockIn ==> s.owner == t && s.count != 0
  {
    ReachableInv(n, tries, s);
    assert ThreadOk(s, t);
  }

  /* ---------- nesting ---------- */

  datatype Call = NoCall | InLock | InUnlock | InTry

  /** What can be seen from outside: the call each thread is in, and its lock calls and successful trylock calls that
      have returned, less its unlock calls that have returned. */
  datatype Log = Log(call: seq<Call>, level: seq<int>)

  function InitLog(n: nat): Log {
    Log(seq(n, _ => NoCall), seq(n, _ => 0))
  }

  /** Only the return at the end of lock and trylock, which releases the meta-lock, returns true. */
  function Returned(call: Call, last: Pc): int {
    match call
    case NoCall => 0
    case InLock => 1
    case InUnlock => -1
    case InTry => if last == Leave then 1 else 0
  }

  /** A call begins; or the thread is outside again, so that its call has returned. */
  function Observe(log: Log, s: State, a: Action, s': State): Log
    requires 0 <= a.t < |s.pc| == |s'.pc| == |log.call| == |log.level|
  {
    match a
    case Lock(t) => log.(call := log.call[t := InLock])
    case Unlock(t) => log.(call := log.call[t := InUnlock])
    case Try(t) => log.(call := log.call[t := InTry])
    case _ =>
      if s'.pc[a.t] == Out then
        Log(log.call[a.t := NoCall], log.level[a.t := log.level[a.t] + Returned(log.call[a.t], s.pc[a.t])])
      else log
  }

  ghost predicate LogFits(log: Log, n: nat) {
    |log.call| == n && |log.level| == n
  }

  /** A run of n threads with its log. */
  ghost predicate Logged(n: nat, acts: seq<Action>, s: State, log: Log)
    decreases |acts|
  {
    if acts == [] then s == Init(n) && log == InitLog(n)
    else
      var last := |acts| - 1;
      exists r, before :: Logged(n, acts[..last], r, before) && LoggedStep(n, r, before, acts[last], s, log)
  }

  ghost predicate LoggedStep(n: nat, s: State, log: Log, a: Action, s': State, log': Log) {
    && Enabled(s, a) && s' == Do(s, a) && |s.pc| == n && |s'.pc| == n
    && LogFits(log, n) && log' == Observe(log, s, a, s')
  }

  lemma {:induction false} LoggedReaches(n: nat, acts: seq<Action>, s: State, log: Log)
    requires Logged(n, acts, s, log)
    ensures Reaches(n, true, acts, s) && LogFits(log, n)
  {
    hide Do;
    if acts != [] {
      var last := |acts| - 1;
      var r, before :| Logged(n, acts[..last], r, before) && LoggedStep(n, r, before, acts[last], s, log);
      LoggedReaches(n, acts[..last], r, before);
    }
  }

  /** The thread is in the part of the code that its call executes. */
  predicate InCall(p: Pc, call: Call) {
    match p
    case Out => call == NoCall
    case LockWant => call == InLock
    case LockIn => call == InLock
    case WaitLeave(_) => call == InLock
    case WaitCall(_) => call == InLock
    case Asleep => call == InLock
    case Claimed => call == InLock || call == InTry
    case Leave => call == InLock || call == InTry
    case TryAsk => call == InTry
    case TryIn => call == InTry
    case _ => call == InUnlock
  }

  /** How far a call under way has already changed the depth. */
  function Pending(p: Pc): int {
    match p
    case Leave => 1
    case UnlockZero(_) => -1
    case UnlockLeave(_) => -1
    case WakeCall => -1
    case _ => 0
  }

  ghost predicate Counted(s: State, log: Log, t: int) {
    0 <= t < |s.pc| && |s.depth| == |s.pc| && LogFits(log, |s.pc|) ==>
      InCall(s.pc[t], log.call[t]) && s.depth[t] == log.level[t] + Pending(s.pc[t])
  }

  /** A step of a call goes on in the same call, or returns; pending changes of the depth are accounted for. */
  ghost predicate InStep(s: State, s': State, t: int)
    requires 0 <= t < |s.pc| == |s.depth|
  {
    && |s'.pc| == |s'.depth| == |s.pc|
    && (forall c | InCall(s.pc[t], c) && s'.pc[t] != Out :: InCall(s'.pc[t], c))
    && (s'.pc[t] == Out ==> forall c | InCall(s.pc[t], c) :: Returned(c, s.pc[t]) == Pending(s.pc[t]))
    && (if s'.pc[t] == Out then s'.depth[t] == s.depth[t]
        else s'.depth[t] - Pending(s'.pc[t]) == s.depth[t] - Pending(s.pc[t]))
  }

  lemma InStepUnlocking(s: State, a: Action)
    requires Enabled(s, a) && a.Advance? && Unlocking(s.pc[a.t])
    ensures InStep(s, Do(s, a), a.t)
  {
    hide Away, Back, SomeoneSleeps;
  }

  lemma InStepLocking(s: State, a: Action)
    requires Enabled(s, a) && (a.Advance? || a.Spurious?) && !(a.Advance? && Unlocking(s.pc[a.t]))
    ensures InStep(s, Do(s, a), a.t)
  {
    hide Away, Back, SomeoneSleeps;
  }

  lemma CallCounted(n: nat, s: State, log: Log, a: Action, s': State, log': Log)
    requires LoggedStep(n, s, log, a, s', log') && Counted(s, log, a.t) && !a.Advance? && !a.Spurious?
    ensures Counted(s', log', a.t)
  {
    hide Away, Back, SomeoneSleeps;
  }

  lemma OwnCounted(n: nat, s: State, log: Log, a: Action, s': State, log': Log)
    requires LoggedStep(n, s, log, a, s', log') && Counted(s, log, a.t)
    ensures Counted(s', log', a.t)
  {
    hide Do;
    if !a.Advance? && !a.Spurious? {
      CallCounted(n, s, log, a, s', log');
    } else if a.Advance? && Unlocking(s.pc[a.t]) {
      InStepUnlocking(s, a);
    } else {
      InStepLocking(s, a);
    }
  }

  lemma OtherCounted(n: nat, s: State, log: Log, a: Action, s': State, log': Log, u: int)
    requires LoggedStep(n, s, log, a, s', log') && Counted(s, log, u) && u != a.t
    ensures Counted(s', log', u)
  {
    hide Away, Back, SomeoneSleeps, Do;
    if 0 <= u < n {
      OtherThreadStays(s, a, u);
    }
  }

  /** In every run the depth of each thread is what its calls add up to. */
  lemma {:induction false} DepthCountsCalls(n: nat, acts: seq<Action>, s: State, log: Log)
    requires Logged(n, acts, s, log)
    ensures |s.pc| == |s.depth| == n && LogFits(log, n) && forall t :: Counted(s, log, t)
  {
    LoggedReaches(n, acts, s, log);
    RunsKeepInv(n, true, acts, s);
    if acts != [] {
      var last := |acts| - 1;
      var r, before :| Logged(n, acts[..last], r, before) && LoggedStep(n, r, before, acts[last], s, log);
      hide Inv, Do, Enabled, Counted, Logged, LoggedStep, Reaches;
      DepthCountsCalls(n, acts[..last], r, before);
      forall t ensures Counted(s, log, t) {
        if t == acts[last].t {
          OwnCounted(n, r, before, acts[last], s, log);
        } else {
          OtherCounted(n, r, before, acts[last], s, log, t);
        }
      }
    }
  }

  /** The lock nests: while the meta-lock is free, a thread outside owns the lock exactly if its calls have locked it
      more often than they have unlocked it, and count is that difference up to its sign. */
  lemma LockNests(n: nat, acts: seq<Action>, s: State, log: Log, t: int)
    requires Logged(n, acts, s, log) && 0 <= t < n && s.meta == NIL
    ensures |s.pc| == |log.level| == n
    ensures s.pc[t] == Out ==> log.level[t] >= 0 && (s.owner == t <==> log.level[t] > 0)
    ensures s.pc[t] == Out && s.owner == t ==> Abs(s.count) == log.level[t]
  {
    DepthCountsCalls(n, acts, s, log);
    LoggedReaches(n, acts, s, log);
    RunsKeepInv(n, true, acts, s);
    assert Counted(s, log, t);
  }

  /** A call that is about to return having got the lock owns it. */
  ghost predicate LeaveOwns(s: State, t: int) {
    0 <= t < |s.pc| && s.pc[t] == Leave ==> s.owner == t
  }

  lemma LeaveOwnsKept(s: State, a: Action, t: int)
    requires Inv(s) && Enabled(s, a) && LeaveOwns(s, t)
    ensures LeaveOwns(Do(s, a), t)
  {
    hide Away, Back, SomeoneSleeps, CountOk;
    assert ThreadOk(s, t) && ThreadOk(s, a.t);
  }

  lemma {:induction false} RunsLeaveOwning(n: nat, tries: bool, acts: seq<Action>, s: State, t: int)
    requires Reaches(n, tries, acts, s)
    ensures LeaveOwns(s, t)
  {
    if acts != [] {
      var last := |acts| - 1;
      var r :| Reaches(n, tries, acts[..last], r) && Enabled(r, acts[last]) && s == Do(r, acts[last]);
      hide Inv, Do, Enabled;
      RunsLeaveOwning(n, tries, acts[..last], r, t);
      RunsKeepInv(n, tries, acts[..last], r);
      LeaveOwnsKept(r, acts[last], t);
    }
  }

  /** From where a call returns. */
  lemma ReturnStep(s: State, t: int, woken: int)
    requires Enabled(s, Advance(t, woken)) && Do(s, Advance(t, woken)).pc[t] == Out
    ensures s.pc[t] == Leave || s.pc[t].UnlockLeave? || s.pc[t] == WakeCall
            || (s.pc[t] == TryAsk && s.meta != NIL)
            || (s.pc[t] == TryIn && s.owner != NIL && s.owner != t)
    ensures Do(s, Advance(t, woken)).owner == s.owner
  {
    hide Away, Back, SomeoneSleeps;
  }

  /** Lock, and a successful trylock, return only to the owner; trylock fails only while the meta-lock is taken or
      another thread owns the lock. */
  lemma ReturnsOwning(n: nat, acts: seq<Action>, s: State, log: Log, t: int, woken: int)
    requires Logged(n, acts, s, log) && 0 <= t < |s.pc| && Enabled(s, Advance(t, woken))
    requires Do(s, Advance(t, woken)).pc[t] == Out
    ensures |log.call| == |s.pc|
    ensures log.call[t] == InLock || (log.call[t] == InTry && Returned(InTry, s.pc[t]) == 1) ==>
              s.owner == t && Do(s, Advance(t, woken)).owner == t
    ensures log.call[t] == InTry && Returned(InTry, s.pc[t]) == 0 ==>
              (s.pc[t] == TryAsk && s.meta != NIL) || (s.pc[t] == TryIn && s.owner != NIL && s.owner != t)
  {
    ReturnStep(s, t, woken);
    hide Do, Enabled, Logged, Inv, Reaches, Pending, Away, Back, SomeoneSleeps, Shaped;
    DepthCountsCalls(n, acts, s, log);
    LoggedReaches(n, acts, s, log);
    RunsLeaveOwning(n, true, acts, s, t);
    assert Counted(s, log, t);
  }

  /** s is r with thread t at p, and n levels deeper. */
  ghost predicate Amid(r: State, s: State, t: int, p: Pc, meta: int, owner: int, n: int) {
    && 0 <= t < |r.pc| == |r.depth|
    && s.pc == r.pc[t := p] && s.depth == r.depth[t := r.depth[t] + n]
    && s.meta == meta && s.owner == owner
  }

  /** s' follows from s by steps of thread t alone. */
  ghost predicate Alone(s: State, t: int, s': State) {
    exists acts: seq<Action> :: LeadsTo(s, acts, s') && forall a | a in acts :: a.t == t
  }

  lemma GoAlone(r: State, s: State, t: int, a: Action) returns (s': State)
    requires Alone(r, t, s) && Enabled(s, a) && a.t == t
    ensures Alone(r, t, s') && s' == Do(s, a)
  {
    hide Do, Enabled;
    s' := Do(s, a);
    var acts: seq<Action> :| LeadsTo(r, acts, s) && forall b | b in acts :: b.t == t;
    var more := acts + [a];
    assert more[..|more| - 1] == acts && more[|more| - 1] == a;
    assert LeadsTo(r, more, s');
  }

  lemma EntersLock(r: State, t: int) returns (s: State)
    requires Shaped(r) && 0 <= t < |r.pc| && r.pc[t] == Out && r.meta == NIL
    ensures Alone(r, t, s) && Amid(r, s, t, LockIn, t, r.owner, 0)
  {
    assert LeadsTo(r, [], r);
    hide Alone, LeadsTo, SomeoneSleeps;
    s := GoAlone(r, r, t, Lock(t));
    assert Amid(r, s, t, LockWant, NIL, r.owner, 0);
    s := GoAlone(r, s, t, Advance(t, NIL));
  }

  lemma CallsTrylock(r: State, t: int) returns (s: State)
    requires Shaped(r) && 0 <= t < |r.pc| && r.pc[t] == Out && r.meta == NIL
    ensures Alone(r, t, s) && Amid(r, s, t, TryAsk, NIL, r.owner, 0)
  {
    assert LeadsTo(r, [], r);
    hide Alone, LeadsTo, SomeoneSleeps;
    s := GoAlone(r, r, t, Try(t));
  }

  lemma EntersTrylock(r: State, t: int) returns (s: State)
    requires Shaped(r) && 0 <= t < |r.pc| && r.pc[t] == Out && r.meta == NIL
    ensures Alone(r, t, s) && Amid(r, s, t, TryIn, t, r.owner, 0)
  {
    hide Alone, LeadsTo, SomeoneSleeps, Away, Back;
    s := CallsTrylock(r, t);
    s := GoAlone(r, s, t, Advance(t, NIL));
  }

  lemma GetsLock(r: State, r': State, t: int, p: Pc) returns (s: State)
    requires Alone(r, t, r') && Shaped(r) && (p == LockIn || p == TryIn)
    requires Amid(r, r', t, p, t, r.owner, 0) && (r.owner == NIL || r.owner == t)
    ensures Alone(r, t, s) && Amid(r, s, t, Leave, t, t, 1)
  {
    hide Alone, SomeoneSleeps, Away;
    s := GoAlone(r, r', t, Advance(t, NIL));
    if r.owner == NIL {
      assert Amid(r, s, t, Claimed, t, NIL, 0);
      s := GoAlone(r, s, t, Advance(t, NIL));
    }
  }

  lemma LeavesLock(r: State, r': State, t: int) returns (s: State)
    requires Alone(r, t, r') && Shaped(r) && Amid(r, r', t, Leave, t, t, 1)
    ensures Alone(r, t, s) && Amid(r, s, t, Out, NIL, t, 1)
  {
    hide Alone, SomeoneSleeps;
    s := GoAlone(r, r', t, Advance(t, NIL));
  }

  /** A thread that finds the meta-lock free, and the lock free or its own, gets the lock, one level deeper, by steps of
      its own: lock does not wait, and trylock returns true. */
  lemma LockReturns(n: nat, tries: bool, r: State, t: int, trylock: bool) returns (s: State)
    requires Reachable(n, tries, r) && 0 <= t < |r.pc| && r.pc[t] == Out
    requires r.meta == NIL && (r.owner == NIL || r.owner == t)
    ensures Alone(r, t, s) && Amid(r, s, t, Out, NIL, t, 1)
  {
    ReachableInv(n, tries, r);
    hide Reachable, Amid, Alone;
    if trylock {
      s := EntersTrylock(r, t);
    } else {
      s := EntersLock(r, t);
    }
    s := GetsLock(r, s, t, if trylock then TryIn else LockIn);
    s := LeavesLock(r, s, t);
  }

  predicate FutexFree(p: Pc) {
    !Waits(p) && !Waking(p)
  }

  lemma AloneUnlocking(s: State, a: Action)
    requires Enabled(s, a) && |s.pc| == 1 && FutexFree(s.pc[0]) && s.count >= 0 && a.Advance? && Unlocking(s.pc[0])
    requires s.pc[0] == UnlockIn ==> s.count != 0
    ensures |Do(s, a).pc| == 1 && FutexFree(Do(s, a).pc[0]) && Do(s, a).count >= 0
  {
    hide SomeoneSleeps, Away;
  }

  lemma AloneLocking(s: State, a: Action)
    requires Enabled(s, a) && |s.pc| == 1 && FutexFree(s.pc[0]) && s.count >= 0 && !(a.Advance? && Unlocking(s.pc[0]))
    requires s.pc[0] == LockIn || s.pc[0] == TryIn ==> (s.owner == NIL <==> s.count == 0)
    ensures |Do(s, a).pc| == 1 && FutexFree(Do(s, a).pc[0]) && Do(s, a).count >= 0
  {
    hide SomeoneSleeps, Back;
  }

  /** A thread alone never makes a futex call. */
  lemma {:induction false} AloneNeedsNoFutex(tries: bool, acts: seq<Action>, s: State)
    requires Reaches(1, tries, acts, s)
    ensures |s.pc| == 1 && FutexFree(s.pc[0]) && s.count >= 0
  {
    if acts != [] {
      var last := |acts| - 1;
      var r :| Reaches(1, tries, acts[..last], r) && Enabled(r, acts[last]) && s == Do(r, acts[last]);
      AloneNeedsNoFutex(tries, acts[..last], r);
      assert Reachable(1, tries, r);
      AssertionsHold(1, tries, r, 0);
      hide Do, Enabled, Reaches, Reachable;
      if acts[last].Advance? && Unlocking(r.pc[0]) {
        AloneUnlocking(r, acts[last]);
      } else {
        AloneLocking(r, acts[last]);
      }
    }
  }

  /* ---------- trylock keeps the meta-lock ---------- */

  /** A thread that left trylock still has the meta-lock. */
  ghost predicate Leaked(s: State, t: int) {
    Shaped(s) && 0 <= t < |s.pc| && s.meta == t && !Inside(s.pc[t])
  }

  /** A trylock that got the meta-lock returns without releasing it exactly when another thread owns the lock. */
  lemma TrylockLeaksIff(n: nat, tries: bool, s: State, t: int)
    requires Reachable(n, tries, s) && 0 <= t < |s.pc| && s.pc[t] == TryIn
    ensures Enabled(s, Advance(t, NIL))
    ensures Leaked(Do(s, Advance(t, NIL)), t) <==> s.owner != NIL && s.owner != t
  {
    ReachableInv(n, tries, s);
    hide Reachable, Reaches, Away, SomeoneSleeps;
    assert ThreadOk(s, t);
  }

  lemma ReachableInv(n: nat, tries: bool, s: State)
    requires Reachable(n, tries, s)
    ensures Inv(s) && |s.pc| == n
  {
    hide Inv;
    var acts :| Reaches(n, tries, acts, s);
    RunsKeepInv(n, tries, acts, s);
  }

  /** A leak happens: thread 0 takes the lock, thread 1 tries it. */
  lemma TrylockLeaks(n: nat) returns (s: State)
    requires n >= 2
    ensures Reachable(n, true, s) && Leaked(s, 1)
  {
    hide Reachable, Reaches, Away, SomeoneSleeps;
    s := OneHolds(n);
    s := Go(n, true, s, Try(1));
    assert Shaped(s) && s.meta == NIL && s.owner == 0 && s.pc[1] == TryAsk;
    s := Go(n, true, s, Advance(1, NIL));
    assert Shaped(s) && s.meta == 1 && s.owner == 0 && s.pc[1] == TryIn;
    s := Go(n, true, s, Advance(1, NIL));
  }

  lemma OneHolds(n: nat) returns (s: State)
    requires n >= 2
    ensures Reachable(n, true, s) && Shaped(s) && |s.pc| == n && s.meta == NIL && s.owner == 0 && s.pc[1] == Out
  {
    s := Init(n);
    assert Reaches(n, true, [], s);
    hide Reachable, Reaches, Away, SomeoneSleeps;
    s := Go(n, true, s, Lock(0));
    s := Go(n, true, s, Advance(0, NIL));
    s := Go(n, true, s, Advance(0, NIL));
    s := Go(n, true, s, Advance(0, NIL));
    s := Go(n, true, s, Advance(0, NIL));
  }

  lemma Go(n: nat, tries: bool, s: State, a: Action) returns (s': State)
    requires Reachable(n, tries, s) && Enabled(s, a) && (a.Try? ==> tries)
    ensures Reachable(n, tries, s') && s' == Do(s, a)
  {
    NextReachable(n, tries, s, a);
    s' := Do(s, a);
  }

  ghost predicate NeverLeaked(s: State) {
    forall t :: !Leaked(s, t)
  }

  /** A single thread only ever finds the lock free or its own. */
  lemma OneThreadStep(s: State, a: Action)
    requires Inv(s) && Enabled(s, a) && NeverLeaked(s) && |s.pc| <= 1
    ensures NeverLeaked(Do(s, a))
  {
    hide Away, Back, SomeoneSleeps, CountOk;
    assert ThreadOk(s, 0) && !Leaked(s, 0);
  }

  lemma {:induction false} OneThreadNeverLeaks(n: nat, acts: seq<Action>, s: State)
    requires Reaches(n, true, acts, s) && n <= 1
    ensures NeverLeaked(s)
  {
    if acts != [] {
      var last := |acts| - 1;
      var r :| Reaches(n, true, acts[..last], r) && Enabled(r, acts[last]) && s == Do(r, acts[last]);
      RunsKeepInv(n, true, acts[..last], r);
      hide Inv, Do, Enabled, NeverLeaked;
      OneThreadNeverLeaks(n, acts[..last], r);
      OneThreadStep(r, acts[last]);
    }
  }

  /** Trylock can lose the meta-lock if and only if there are two threads or more. */
  lemma LeakReachableIff(n: nat)
    ensures (exists s, t :: Reachable(n, true, s) && Leaked(s, t)) <==> n >= 2
  {
    hide Reaches, Leaked;
    if n >= 2 {
      var s := TrylockLeaks(n);
    } else {
      forall s, t | Reachable(n, true, s)
        ensures !Leaked(s, t)
      {
        var acts :| Reaches(n, true, acts, s);
        OneThreadNeverLeaks(n, acts, s);
      }
    }
  }

  /** s' follows from s by the actions acts. */
  ghost predicate LeadsTo(s: State, acts: seq<Action>, s': State) {
    if acts == [] then s' == s
    else
      var last := |acts| - 1;
      exists r :: LeadsTo(s, acts[..last], r) && Enabled(r, acts[last]) && s' == Do(r, acts[last])
  }

  /** The thread waits for the meta-lock. */
  predicate WantsMeta(p: Pc) {
    p == LockWant || p == UnlockWant
  }

  lemma LeakStays(s: State, a: Action, t: int)
    requires Inv(s) && Leaked(s, t) && Enabled(s, a)
    ensures Leaked(Do(s, a), t)
  {
    hide Away, Back, SomeoneSleeps, CountOk;
    assert ThreadOk(s, a.t) && ThreadOk(s, t);
  }

  lemma WantersStay(s: State, a: Action, t: int, u: int)
    requires Leaked(s, t) && Enabled(s, a) && 0 <= u < |s.pc| && WantsMeta(s.pc[u])
    ensures u < |Do(s, a).pc| && Do(s, a).pc[u] == s.pc[u]
  {
    hide Away, Back, SomeoneSleeps;
  }

  /** The thread wants the meta-lock in both states, if in the first. */
  ghost predicate StillWants(s: State, s': State, u: int) {
    0 <= u < |s.pc| && WantsMeta(s.pc[u]) ==> u < |s'.pc| && s'.pc[u] == s.pc[u]
  }

  lemma {:induction false} LeakRuns(s: State, t: int, acts: seq<Action>, s': State)
    requires Inv(s) && Leaked(s, t) && LeadsTo(s, acts, s')
    ensures Inv(s') && Leaked(s', t) && |s'.pc| == |s.pc| && forall u :: StillWants(s, s', u)
  {
    hide Inv, Do, Enabled, Leaked;
    if acts != [] {
      var last := |acts| - 1;
      var r :| LeadsTo(s, acts[..last], r) && Enabled(r, acts[last]) && s' == Do(r, acts[last]);
      LeakRuns(s, t, acts[..last], r);
      StepKeepsInv(r, acts[last]);
      SameThreads(r, acts[last]);
      LeakStays(r, acts[last], t);
      forall u ensures StillWants(s, s', u) {
        assert StillWants(s, r, u);
        if 0 <= u < |s.pc| && WantsMeta(s.pc[u]) {
          WantersStay(r, acts[last], t, u);
        }
      }
    }
  }

  /** After a leak, whatever happens: no thread is ever inside the meta-lock again, the thread that leaked it included,
      and whoever wants it waits for ever. */
  lemma LeakIsForever(n: nat, tries: bool, s: State, t: int, acts: seq<Action>, s': State)
    requires Reachable(n, tries, s) && Leaked(s, t) && LeadsTo(s, acts, s')
    ensures Leaked(s', t) && |s'.pc| == |s.pc| && forall u :: StillWants(s, s', u)
    ensures forall u | 0 <= u < |s'.pc| :: !Inside(s'.pc[u])
    ensures forall u, w | 0 <= u < |s'.pc| && WantsMeta(s'.pc[u]) :: !Enabled(s', Advance(u, w))
  {
    hide Inv, Do, Enabled, Leaked, LeadsTo, Reachable, StillWants;
    ReachableInv(n, tries, s);
    LeakRuns(s, t, acts, s');
    LeakedMeansBlocked(s', t);
  }

  lemma LeakedMeansBlocked(s: State, t: int)
    requires Inv(s) && Leaked(s, t)
    ensures forall u | 0 <= u < |s.pc| :: !Inside(s.pc[u])
    ensures forall u, w | 0 <= u < |s.pc| && WantsMeta(s.pc[u]) :: !Enabled(s, Advance(u, w))
  {
    hide CountOk;
    forall u | 0 <= u < |s.pc|
      ensures !Inside(s.pc[u])
    {
      assert ThreadOk(s, u);
    }
  }

  /* ---------- wake-ups ---------- */

  /** An unlock that will wake a sleeper is under way. */
  predicate Waking(p: Pc) {
    p == UnlockZero(true) || p == UnlockLeave(true) || p == WakeCall
  }

  ghost predicate WakeUpDue(s: State) {
    SomeoneSleeps(s) ==> s.count < 0 || exists u :: 0 <= u < |s.pc| && Waking(s.pc[u])
  }

  ghost predicate NoTryAt(s: State, t: int) {
    0 <= t < |s.pc| ==> s.pc[t] != TryAsk && s.pc[t] != TryIn && (s.meta == t ==> Inside(s.pc[t]))
  }

  ghost predicate NoTries(s: State) {
    forall t :: NoTryAt(s, t)
  }

  lemma NoTriesKept(s: State, a: Action)
    requires NoTries(s) && Enabled(s, a) && !a.Try?
    ensures NoTries(Do(s, a))
  {
    var s' := Do(s, a);
    forall t ensures NoTryAt(s', t) {
      assert NoTryAt(s, t) && NoTryAt(s, a.t);
    }
  }

  /** A step of the thread that is awake leaves the count negative or the wake-up under way. */
  lemma OtherStepsKeepDue(s: State, a: Action, z: int)
    requires Inv(s) && NoTries(s) && WakeUpDue(s) && |s.pc| <= 2 && Enabled(s, a) && !a.Try?
    requires 0 <= z < |s.pc| && z != a.t && s.pc[z] == Asleep && Do(s, a).pc[z] == Asleep
    ensures Do(s, a).count < 0 || Waking(Do(s, a).pc[a.t])
  {
    assert ThreadOk(s, a.t) && ThreadOk(s, z) && NoTryAt(s, a.t);
    AwakeIsDue(s, a.t, z);
    hide NoTries, WakeUpDue;
  }

  /** With one of two threads asleep, it is the other that keeps the count negative or has the wake-up under way. */
  lemma AwakeIsDue(s: State, t: int, z: int)
    requires WakeUpDue(s) && |s.pc| <= 2 && 0 <= t < |s.pc| && 0 <= z < |s.pc| && z != t && s.pc[z] == Asleep
    ensures s.count < 0 || Waking(s.pc[t])
  {
    if s.count >= 0 {
      var u :| 0 <= u < |s.pc| && Waking(s.pc[u]);
      assert u == t;
    }
  }

  lemma SleeperBefore(s: State, a: Action, z: int)
    requires Enabled(s, a) && 0 <= z < |s.pc| && |Do(s, a).pc| == |s.pc| && Do(s, a).pc[z] == Asleep
    ensures z != a.t ==> s.pc[z] == Asleep
    ensures z == a.t ==> s.pc[z].WaitCall? && s.count == s.pc[z].v && Do(s, a).count == s.count
  {
    hide Away, Back, SomeoneSleeps;
  }

  lemma TwoThreadsWake(s: State, a: Action)
    requires Inv(s) && NoTries(s) && WakeUpDue(s) && |s.pc| <= 2 && Enabled(s, a) && !a.Try?
    ensures WakeUpDue(Do(s, a))
  {
    assert ThreadOk(s, a.t);
    SameThreads(s, a);
    hide Do, Enabled, NoTries, CountOk;
    var s' := Do(s, a);
    if SomeoneSleeps(s') {
      var z :| 0 <= z < |s'.pc| && s'.pc[z] == Asleep;
      SleeperBefore(s, a, z);
      if z != a.t {
        OtherStepsKeepDue(s, a, z);
      }
    }
  }

  lemma {:induction false} TwoThreadRunsWake(n: nat, acts: seq<Action>, s: State)
    requires Reaches(n, false, acts, s) && n <= 2
    ensures WakeUpDue(s) && NoTries(s) && Inv(s)
  {
    RunsKeepInv(n, false, acts, s);
    if acts != [] {
      var last := |acts| - 1;
      var r :| Reaches(n, false, acts[..last], r) && Enabled(r, acts[last]) && s == Do(r, acts[last]);
      TwoThreadRunsWake(n, acts[..last], r);
      RunsKeepInv(n, false, acts[..last], r);
      TwoThreadsWake(r, acts[last]);
      NoTriesKept(r, acts[last]);
    }
  }

  /** Somebody sleeps and nobody is left to wake them: every other thread sleeps too or is outside without the lock. */
  ghost predicate Lost(s: State) {
    && SomeoneSleeps(s) && |s.depth| == |s.pc|
    && forall t | 0 <= t < |s.pc| :: s.pc[t] == Asleep || (s.pc[t] == Out && s.depth[t] == 0)
  }

  lemma TwoThreadsNeverLose(n: nat, s: State)
    requires Reachable(n, false, s) && n <= 2
    ensures !Lost(s)
  {
    var acts :| Reaches(n, false, acts, s);
    TwoThreadRunsWake(n, acts, s);
    assert s.owner != NIL ==> ThreadOk(s, s.owner);
  }

  /* ---------- three threads ---------- */

  /** The fields while only threads 0, 1 and 2 have ever moved. */
  ghost predicate Looks(n: nat, s: State, meta: int, owner: int, count: int, p0: Pc, p1: Pc, p2: Pc, d0: int, d1: int) {
    && n >= 3 && |s.pc| == n && |s.depth| == n
    && s.meta == meta && s.owner == owner && s.count == count
    && s.pc[0] == p0 && s.pc[1] == p1 && s.pc[2] == p2
    && s.depth[0] == d0 && s.depth[1] == d1
    && (forall t | 3 <= t < n :: s.pc[t] == Out) && (forall t | 2 <= t < n :: s.depth[t] == 0)
  }

  /** Thread 0 takes the lock. */
  lemma ZeroLocks(n: nat) returns (s: State)
    requires n >= 3
    ensures Reachable(n, false, s) && Looks(n, s, NIL, 0, 1, Out, Out, Out, 1, 0)
  {
    s := Init(n);
    assert Reaches(n, false, [], s);
    hide Reachable, Reaches, Away, SomeoneSleeps;
    s := Go(n, false, s, Lock(0));
    assert Looks(n, s, NIL, NIL, 0, LockWant, Out, Out, 0, 0);
    s := Go(n, false, s, Advance(0, NIL));
    s := Go(n, false, s, Advance(0, NIL));
    assert Looks(n, s, 0, NIL, 1, Claimed, Out, Out, 0, 0);
    s := Go(n, false, s, Advance(0, NIL));
    s := Go(n, false, s, Advance(0, NIL));
  }

  /** Threads 1 and 2 go to sleep. */
  lemma TwoSleep(n: nat, r: State) returns (s: State)
    requires Reachable(n, false, r) && Looks(n, r, NIL, 0, 1, Out, Out, Out, 1, 0)
    ensures Reachable(n, false, s) && Looks(n, s, NIL, 0, -1, Out, Asleep, Asleep, 1, 0)
  {
    hide Reachable, Reaches;
    s := Go(n, false, r, Lock(1));
    s := Go(n, false, s, Advance(1, NIL));
    s := Go(n, false, s, Advance(1, NIL));
    s := Go(n, false, s, Advance(1, NIL));
    s := Go(n, false, s, Advance(1, NIL));
    assert Looks(n, s, NIL, 0, -1, Out, Asleep, Out, 1, 0);
    s := Go(n, false, s, Lock(2));
    s := Go(n, false, s, Advance(2, NIL));
    s := Go(n, false, s, Advance(2, NIL));
    s := Go(n, false, s, Advance(2, NIL));
    s := Go(n, false, s, Advance(2, NIL));
  }

  /** Thread 0 unlocks and wakes thread 1. */
  lemma ZeroUnlocks(n: nat, r: State) returns (s: State)
    requires Reachable(n, false, r) && Looks(n, r, NIL, 0, -1, Out, Asleep, Asleep, 1, 0)
    ensures Reachable(n, false, s) && Looks(n, s, NIL, NIL, 0, Out, LockWant, Asleep, 0, 0)
  {
    hide Reachable, Reaches;
    s := Go(n, false, r, Unlock(0));
    s := Go(n, false, s, Advance(0, NIL));
    s := Go(n, false, s, Advance(0, NIL));
    s := Go(n, false, s, Advance(0, NIL));
    s := Go(n, false, s, Advance(0, NIL));
    assert s.pc[1] == Asleep;
    s := Go(n, false, s, Advance(0, 1));
  }

  /** Thread 1 takes the lock with a count of 1, so that its unlock wakes nobody. */
  lemma OneForgets(n: nat, r: State) returns (s: State)
    requires Reachable(n, false, r) && Looks(n, r, NIL, NIL, 0, Out, LockWant, Asleep, 0, 0)
    ensures Reachable(n, false, s) && Looks(n, s, NIL, NIL, 0, Out, Out, Asleep, 0, 0)
  {
    hide Reachable, Reaches;
    s := Go(n, false, r, Advance(1, NIL));
    s := Go(n, false, s, Advance(1, NIL));
    s := Go(n, false, s, Advance(1, NIL));
    s := Go(n, false, s, Advance(1, NIL));
    assert Looks(n, s, NIL, 1, 1, Out, Out, Asleep, 0, 1);
    s := Go(n, false, s, Unlock(1));
    s := Go(n, false, s, Advance(1, NIL));
    s := Go(n, false, s, Advance(1, NIL));
    s := Go(n, false, s, Advance(1, NIL));
    s := Go(n, false, s, Advance(1, NIL));
  }

  lemma ThreeThreadsLose(n: nat) returns (s: State)
    requires n >= 3
    ensures Reachable(n, false, s) && Lost(s)
  {
    hide Reachable, Reaches;
    s := ZeroLocks(n);
    s := TwoSleep(n, s);
    s := ZeroUnlocks(n, s);
    s := OneForgets(n, s);
    assert s.pc[2] == Asleep;
  }

  /** With lock and unlock alone, no wake-up is ever lost if and only if there are at most two threads. */
  lemma NoLostWakeUpIff(n: nat)
    ensures (forall s :: Reachable(n, false, s) ==> !Lost(s)) <==> n <= 2
  {
    if n >= 3 {
      var s := ThreeThreadsLose(n);
    } else {
      forall s | Reachable(n, false, s)
        ensures !Lost(s)
      {
        TwoThreadsNeverLose(n, s);
      }
    }
  }
}
