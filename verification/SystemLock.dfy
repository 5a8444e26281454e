/** Nested locks that pause the system and leave fullscreen while a dialog is up: a lock that found the
    system running, or fullscreen, owes the return to it. */
module SystemLock {
  import opened Basics

  /** Whether a system is running at all, and whether a dialog makes the window leave fullscreen. */
  datatype Config = Config(valid: bool, leaves: bool)

  datatype System = System(paused: bool, fullscreen: bool)

  /** A moved-from lock has lost its dialog parent. */
  datatype Lock = Lock(live: bool, wasPaused: bool, wasFullscreen: bool)

  predicate Owes(l: Lock) {
    !l.wasPaused || l.wasFullscreen
  }

  const MOVED_FROM := Lock(false, true, false)

  // ----- The operations

  /** The system as it is under a lock. */
  function Suspended(c: Config, s: System): System {
    System(s.paused || c.valid, s.fullscreen && !c.leaves)
  }

  function Locked(c: Config, s: System): Lock {
    Lock(true, !c.valid || s.paused, s.fullscreen && c.leaves)
  }

  function Released(s: System, l: Lock): System {
    System(s.paused && l.wasPaused, s.fullscreen || l.wasFullscreen)
  }

  function Cancelled(l: Lock): Lock {
    l.(wasPaused := true, wasFullscreen := false)
  }

  datatype Op = Acquire | Move(from: nat) | Cancel(at: nat) | Release(at: nat)

  /** The locks that have not ended, in the order of their construction. */
  datatype State = State(system: System, stack: seq<Lock>)

  predicate Legal(s: State, op: Op) {
    match op
    case Acquire => true
    case Move(i) => i < |s.stack|
    case Cancel(i) => i < |s.stack|
    case Release(i) => i < |s.stack|
  }

  function Step(c: Config, s: State, op: Op): State
    requires Legal(s, op)
  {
    match op
    case Acquire => State(Suspended(c, s.system), s.stack + [Locked(c, s.system)])
    case Move(i) => s.(stack := s.stack[i := MOVED_FROM] + [s.stack[i]])
    case Cancel(i) => s.(stack := s.stack[i := Cancelled(s.stack[i])])
    case Release(i) => State(Released(s.system, s.stack[i]), Without(s.stack, i))
  }

  // ----- What the locks are for

  ghost predicate Live(s: State) {
    exists i :: 0 <= i < |s.stack| && s.stack[i].live
  }

  predicate Held(c: Config, s: System) {
    s == Suspended(c, s)
  }

  /** What a live lock is there for: a valid system is paused, and it is not fullscreen where dialogs
      make it leave. */
  lemma HeldMeans(c: Config, s: System)
    ensures Held(c, s) <==> (c.valid ==> s.paused) && (c.leaves ==> !s.fullscreen)
  {
  }

  /** A new lock pauses a valid system and takes it out of fullscreen where dialogs leave it, and changes
      nothing else; ending it at once undoes that, and ending it after a cancellation does not. */
  lemma AcquireThenRelease(c: Config, s: State)
    ensures var t, n := Step(c, s, Acquire), |s.stack|;
            && t.system.paused == (s.system.paused || c.valid)
            && t.system.fullscreen == (s.system.fullscreen && !c.leaves)
            && |t.stack| == n + 1 && t.stack[..n] == s.stack && t.stack[n].live
            && Step(c, t, Release(n)) == s
            && Step(c, Step(c, t, Cancel(n)), Release(n)) == s.(system := t.system)
  {
    var t, n := Step(c, s, Acquire), |s.stack|;
    var u := Step(c, t, Cancel(n));
    assert t.stack[..n] == s.stack && t.stack[n + 1..] == [];
    assert u.stack[..n] == s.stack && u.stack[n + 1..] == [];
  }

  ghost predicate NothingOwed(s: State) {
    forall i :: 0 <= i < |s.stack| ==> !Owes(s.stack[i])
  }

  /** At most one lock owes. While one does, the system is suspended and what is owed is exactly what
      there was before; while none does, the system is as before, unless what was owed was cancelled. */
  ghost predicate Accounted(c: Config, s: State, before: System, cancelled: bool) {
    && (forall i, j :: 0 <= i < j < |s.stack| ==> !Owes(s.stack[i]) || !Owes(s.stack[j]))
    && (forall i :: 0 <= i < |s.stack| && Owes(s.stack[i]) ==>
          s.stack[i] == Locked(c, before) && s.system == Suspended(c, before) && !cancelled)
    && (NothingOwed(s) ==> s.system == if cancelled then Suspended(c, before) else before)
  }

  ghost predicate CancelsOwner(s: State, op: Op)
    requires Legal(s, op)
  {
    op.Cancel? && Owes(s.stack[op.at])
  }

  lemma ReturnRestores(c: Config, before: System)
    ensures Released(Suspended(c, before), Locked(c, before)) == before
    ensures Owes(Locked(c, before)) <==> !Held(c, before)
    ensures Held(c, Suspended(c, before))
  {
  }

  lemma SettledReleases(s: System, l: Lock)
    requires !Owes(l)
    ensures Released(s, l) == s
  {
  }

  lemma NothingOwedAccounts(c: Config, s: State)
    requires NothingOwed(s)
    ensures Accounted(c, s, s.system, false)
  {
    hide Owes, Suspended;
  }

  lemma AcquireAccounts(c: Config, s: State, before: System, cancelled: bool)
    requires Accounted(c, s, before, cancelled)
    ensures Accounted(c, Step(c, s, Acquire), before, cancelled)
  {
    hide Owes, Suspended, Locked;
    var t := Step(c, s, Acquire);
    ReturnRestores(c, before);
    ReturnRestores(c, s.system);
    assert forall i :: 0 <= i < |s.stack| ==> t.stack[i] == s.stack[i];
    assert t.stack[|s.stack|] == Locked(c, s.system);
  }

  lemma MoveAccounts(c: Config, s: State, before: System, cancelled: bool, i: nat)
    requires Accounted(c, s, before, cancelled) && i < |s.stack|
    ensures Accounted(c, Step(c, s, Move(i)), before, cancelled)
  {
    hide Suspended, Locked;
    var t := Step(c, s, Move(i));
    assert t.stack[|s.stack|] == s.stack[i] && !Owes(t.stack[i]);
    hide Owes;
    assert forall k :: 0 <= k < |s.stack| && k != i ==> t.stack[k] == s.stack[k];
    if NothingOwed(t) { assert !Owes(t.stack[|s.stack|]); }
  }

  lemma CancelAccounts(c: Config, s: State, before: System, cancelled: bool, i: nat)
    requires Accounted(c, s, before, cancelled) && i < |s.stack|
    ensures Accounted(c, Step(c, s, Cancel(i)), before, cancelled || Owes(s.stack[i]))
  {
    hide Suspended, Locked;
    var t := Step(c, s, Cancel(i));
    assert !Owes(t.stack[i]);
    hide Owes;
    assert forall k :: 0 <= k < |s.stack| && k != i ==> t.stack[k] == s.stack[k];
    if NothingOwed(t) && !Owes(s.stack[i]) { assert NothingOwed(s); }
  }

  lemma ReleaseAccounts(c: Config, s: State, before: System, cancelled: bool, i: nat)
    requires Accounted(c, s, before, cancelled) && i < |s.stack|
    ensures Accounted(c, Step(c, s, Release(i)), before, cancelled)
  {
    hide Owes, Suspended, Locked, Released;
    var t := Step(c, s, Release(i));
    RestOf(s.stack, i);
    if Owes(s.stack[i]) {
      ReturnRestores(c, before);
    } else {
      SettledReleases(s.system, s.stack[i]);
      if NothingOwed(t) { StillNothingOwed(s, t, i); }
    }
  }

  lemma RestOf(stack: seq<Lock>, i: nat)
    requires i < |stack|
    ensures |Without(stack, i)| == |stack| - 1
    ensures forall k :: 0 <= k < |stack| - 1 ==> Without(stack, i)[k] == stack[if k < i then k else k + 1]
  {
  }

  lemma StillNothingOwed(s: State, t: State, i: nat)
    requires i < |s.stack| && t.stack == Without(s.stack, i) && !Owes(s.stack[i]) && NothingOwed(t)
    ensures NothingOwed(s)
  {
    hide Owes;
    forall k | 0 <= k < |s.stack| && k != i ensures !Owes(s.stack[k]) {
      assert s.stack[k] == t.stack[if k < i then k else k - 1];
    }
  }

  /** Every operation keeps the account. */
  lemma StepAccounts(c: Config, s: State, op: Op, before: System, cancelled: bool)
    requires Accounted(c, s, before, cancelled) && Legal(s, op)
    ensures Accounted(c, Step(c, s, op), before, cancelled || CancelsOwner(s, op))
  {
    hide Accounted, Owes;
    match op
    case Acquire => AcquireAccounts(c, s, before, cancelled);
    case Move(i) => MoveAccounts(c, s, before, cancelled, i);
    case Cancel(i) => CancelAccounts(c, s, before, cancelled, i);
    case Release(i) => ReleaseAccounts(c, s, before, cancelled, i);
  }

  // ----- Whole runs

  /** Any run of operations, from a point at which no lock is live. */
  ghost predicate Trace(c: Config, ops: seq<Op>, states: seq<State>) {
    && |states| == |ops| + 1
    && (forall i :: 0 <= i < |states[0].stack| ==> states[0].stack[i] == MOVED_FROM)
    && forall i :: 0 <= i < |ops| ==> Legal(states[i], ops[i]) && states[i + 1] == Step(c, states[i], ops[i])
  }

  /** What was owed was cancelled between two points of the run. */
  ghost predicate CancelledSince(c: Config, ops: seq<Op>, states: seq<State>, m: nat, n: nat)
    requires Trace(c, ops, states) && m <= n < |states|
  {
    exists j :: m <= j < n && CancelsOwner(states[j], ops[j])
  }

  lemma CancelledSinceStep(c: Config, ops: seq<Op>, states: seq<State>, m: nat, n: nat)
    requires Trace(c, ops, states) && m <= n < |ops|
    ensures CancelledSince(c, ops, states, m, n + 1)
            <==> CancelledSince(c, ops, states, m, n) || CancelsOwner(states[n], ops[n])
  {
  }

  /** From any point at which nothing is owed, every later point of the run is accounted for by the
      system as it was there. */
  lemma {:induction false} RunAccounts(c: Config, ops: seq<Op>, states: seq<State>, m: nat, n: nat)
    requires Trace(c, ops, states) && m <= n < |states| && NothingOwed(states[m])
    ensures Accounted(c, states[n], states[m].system, CancelledSince(c, ops, states, m, n))
    decreases n
  {
    hide Accounted, NothingOwed, Step, CancelsOwner;
    if n == m {
      NothingOwedAccounts(c, states[m]);
    } else {
      RunAccounts(c, ops, states, m, n - 1);
      CancelledSinceStep(c, ops, states, m, n - 1);
      StepAccounts(c, states[n - 1], ops[n - 1], states[m].system, CancelledSince(c, ops, states, m, n - 1));
    }
  }

  lemma NothingOwedAtFirst(c: Config, ops: seq<Op>, states: seq<State>)
    requires Trace(c, ops, states)
    ensures NothingOwed(states[0])
  {
    hide Step;
  }

  /** At most one lock owes, at every point of every run. */
  lemma OneOwes(c: Config, ops: seq<Op>, states: seq<State>, n: nat, i: nat, j: nat)
    requires Trace(c, ops, states) && n < |states|
    requires i < |states[n].stack| && j < |states[n].stack| && i != j && Owes(states[n].stack[i])
    ensures !Owes(states[n].stack[j])
  {
    hide Trace, Owes, CancelledSince;
    NothingOwedAtFirst(c, ops, states);
    RunAccounts(c, ops, states, 0, n);
  }

  // ----- What the locks of a run can be

  /** A lock that is not live owes nothing, and what is owed was taken. */
  predicate Sound(c: Config, l: Lock) {
    (!l.live ==> l == MOVED_FROM) && (!l.wasPaused ==> c.valid) && (l.wasFullscreen ==> c.leaves)
  }

  lemma {:induction false} LocksSound(c: Config, ops: seq<Op>, states: seq<State>, n: nat)
    requires Trace(c, ops, states) && n < |states|
    ensures forall i :: 0 <= i < |states[n].stack| ==> Sound(c, states[n].stack[i])
  {
    if n > 0 {
      LocksSound(c, ops, states, n - 1);
      StepSound(c, states[n - 1], ops[n - 1]);
    }
  }

  lemma StepSound(c: Config, s: State, op: Op)
    requires Legal(s, op) && forall i :: 0 <= i < |s.stack| ==> Sound(c, s.stack[i])
    ensures forall i :: 0 <= i < |Step(c, s, op).stack| ==> Sound(c, Step(c, s, op).stack[i])
  {
  }

  lemma NotLiveNothingOwed(c: Config, s: State)
    requires !Live(s) && forall i :: 0 <= i < |s.stack| ==> Sound(c, s.stack[i])
    ensures NothingOwed(s)
  {
    forall i | 0 <= i < |s.stack| ensures !Owes(s.stack[i]) {
      assert !s.stack[i].live;
    }
  }

  /** Between two points at which no lock is live, whatever happened there, the system has come back to
      what it was, unless what was owed was cancelled: then it stays as the locks left it. */
  lemma LastReleaseRestores(c: Config, ops: seq<Op>, states: seq<State>, m: nat, n: nat)
    requires Trace(c, ops, states) && m <= n < |states|
    requires !Live(states[m]) && !Live(states[n])
    ensures states[n].system == if CancelledSince(c, ops, states, m, n) then Suspended(c, states[m].system)
                                else states[m].system
  {
    hide Trace, Live, CancelledSince, Sound, NothingOwed, Suspended, Owes;
    LocksSound(c, ops, states, m);
    LocksSound(c, ops, states, n);
    NotLiveNothingOwed(c, states[m]);
    NotLiveNothingOwed(c, states[n]);
    RunAccounts(c, ops, states, m, n);
  }

  // ----- When live locks hold the system

  /** The lock that ends gives the system back while another one is live. */
  ghost predicate EndsEarly(c: Config, s: State, op: Op)
    requires Legal(s, op)
  {
    op.Release? && Owes(s.stack[op.at]) && Live(Step(c, s, op))
  }

  lemma LiveAt(s: State, i: nat)
    requires i < |s.stack| && s.stack[i].live
    ensures Live(s)
  {
  }

  /** From a held system, one operation keeps the hold exactly when it does not give back early. */
  lemma StepHoldsIff(c: Config, s: State, op: Op)
    requires Legal(s, op) && (Live(s) ==> Held(c, s.system))
    requires forall i :: 0 <= i < |s.stack| ==> Sound(c, s.stack[i])
    ensures (Live(Step(c, s, op)) ==> Held(c, Step(c, s, op).system)) <==> !EndsEarly(c, s, op)
  {
    var t := Step(c, s, op);
    match op
    case Acquire =>
    case Move(i) =>
      if k :| 0 <= k < |t.stack| && t.stack[k].live { LiveAt(s, if k == |s.stack| then i else k); }
    case Cancel(i) =>
      if k :| 0 <= k < |t.stack| && t.stack[k].live { LiveAt(s, k); }
    case Release(i) =>
      RestOf(s.stack, i);
      if k :| 0 <= k < |t.stack| && t.stack[k].live { LiveAt(s, if k < i then k else k + 1); }
      assert Sound(c, s.stack[i]);
      if Owes(s.stack[i]) { OwedIsNotHeld(c, s.system, s.stack[i]); } else { SettledReleases(s.system, s.stack[i]); }
  }

  lemma OwedIsNotHeld(c: Config, s: System, l: Lock)
    requires Sound(c, l) && Owes(l)
    ensures !Held(c, Released(s, l))
  {
  }

  ghost predicate HeldThrough(c: Config, states: seq<State>, n: nat)
    requires n < |states|
  {
    forall k :: 0 <= k <= n && Live(states[k]) ==> Held(c, states[k].system)
  }

  ghost predicate NoneEndsEarly(c: Config, ops: seq<Op>, states: seq<State>, n: nat)
    requires Trace(c, ops, states) && n < |states|
  {
    forall k :: 0 <= k < n ==> !EndsEarly(c, states[k], ops[k])
  }

  /** Over every run: as long as a lock is live the system is paused, if there is one, and not
      fullscreen where dialogs leave it, exactly when no lock that owes the return ends under the
      eyes of another live one. */
  lemma {:induction false} LiveLocksHold(c: Config, ops: seq<Op>, states: seq<State>, n: nat)
    requires Trace(c, ops, states) && n < |states|
    ensures HeldThrough(c, states, n) <==> NoneEndsEarly(c, ops, states, n)
  {
    hide Live, Step, Held, EndsEarly, Sound;
    if n == 0 {
      NoneLiveAtFirst(c, ops, states);
    } else {
      LiveLocksHold(c, ops, states, n - 1);
      LocksSound(c, ops, states, n - 1);
      if HeldThrough(c, states, n - 1) {
        StepHoldsIff(c, states[n - 1], ops[n - 1]);
        assert states[n] == Step(c, states[n - 1], ops[n - 1]);
        assert HeldThrough(c, states, n) <==> (Live(states[n]) ==> Held(c, states[n].system));
      }
    }
  }

  lemma NoneLiveAtFirst(c: Config, ops: seq<Op>, states: seq<State>)
    requires Trace(c, ops, states)
    ensures !Live(states[0])
  {
    hide Step;
  }

  // ----- Locks in order

  /** No lock that owes a return moves or ends below another live lock. */
  ghost predicate Orderly(s: State, op: Op)
    requires Legal(s, op)
  {
    && (op.Move? && Owes(s.stack[op.from]) ==> forall j :: op.from < j < |s.stack| ==> !s.stack[j].live)
    && (op.Release? && Owes(s.stack[op.at]) ==> forall j :: op.at < j < |s.stack| ==> !s.stack[j].live)
  }

  /** The lock that owes is the oldest live one. */
  ghost predicate OldestOwes(s: State) {
    forall i, j :: 0 <= i < j < |s.stack| && Owes(s.stack[j]) ==> !s.stack[i].live
  }

  lemma OrderlyStep(c: Config, s: State, op: Op)
    requires Legal(s, op) && Orderly(s, op) && OldestOwes(s) && (Live(s) ==> Held(c, s.system))
    ensures OldestOwes(Step(c, s, op)) && !EndsEarly(c, s, op)
  {
    hide Suspended, Released;
    var t := Step(c, s, op);
    match op
    case Acquire =>
      ReturnRestores(c, s.system);
      assert !Live(s) || !Owes(t.stack[|s.stack|]);
    case Move(i) =>
    case Cancel(i) =>
    case Release(i) => RestOf(s.stack, i);
  }

  /** A run in which all locks go in order keeps the hold. */
  lemma {:induction false} OrderlyRunsHold(c: Config, ops: seq<Op>, states: seq<State>, n: nat)
    requires Trace(c, ops, states) && n < |states|
    requires forall k :: 0 <= k < n ==> Orderly(states[k], ops[k])
    ensures HeldThrough(c, states, n) && OldestOwes(states[n])
  {
    hide Live, Step, Held, EndsEarly, Orderly;
    if n == 0 {
      NothingOwedAtFirst(c, ops, states);
    } else {
      OrderlyRunsHold(c, ops, states, n - 1);
      OrderlyStep(c, states[n - 1], ops[n - 1]);
    }
    LiveLocksHold(c, ops, states, n);
    if n > 0 { LiveLocksHold(c, ops, states, n - 1); }
  }

  /** Two dialogs, of which the older hands its lock on before the newer is done. */
  lemma MovedFromBelow()
    ensures var c := Config(true, true);
            var s0 := State(System(false, false), []);
            var s := Step(c, Step(c, Step(c, Step(c, s0, Acquire), Acquire), Move(0)), Release(2));
            Live(s) && !s.system.paused
  {
    var c := Config(true, true);
    var s2 := Step(c, Step(c, State(System(false, false), []), Acquire), Acquire);
    var s := Step(c, Step(c, s2, Move(0)), Release(2));
    LiveAt(s, 1);
  }

  // ----- The window and its locks

  class MainWindow {
    const valid: bool
    const leaves: bool
    var paused: bool
    var fullscreen: bool

    constructor (valid: bool, leaves: bool, paused: bool, fullscreen: bool)
      ensures this.valid == valid && this.leaves == leaves && Now() == System(paused, fullscreen)
    {
      this.valid, this.leaves, this.paused, this.fullscreen := valid, leaves, paused, fullscreen;
    }

    function Now(): System
      reads this
    {
      System(paused, fullscreen)
    }

    method PauseAndLockSystem() returns (l: LockHandle)
      modifies this
      ensures fresh(l) && l.window == this
      ensures l.Value() == Locked(Config(valid, leaves), old(Now()))
      ensures Now() == Suspended(Config(valid, leaves), old(Now()))
    {
      var wasFullscreen := fullscreen && leaves;
      var wasPaused := !valid || paused;
      if wasFullscreen { fullscreen := false; }
      if !wasPaused { paused := true; }
      l := new LockHandle(this, wasPaused, wasFullscreen);
    }
  }

  class LockHandle {
    const window: MainWindow
    var dialogParent: bool
    var wasPaused: bool
    var wasFullscreen: bool

    constructor (window: MainWindow, wasPaused: bool, wasFullscreen: bool)
      ensures this.window == window && Value() == Lock(true, wasPaused, wasFullscreen)
    {
      this.window, dialogParent, this.wasPaused, this.wasFullscreen := window, true, wasPaused, wasFullscreen;
    }

    constructor MoveFrom(l: LockHandle)
      modifies l
      ensures window == l.window && Value() == old(l.Value())
      ensures l.Value() == MOVED_FROM
    {
      window, dialogParent, wasPaused, wasFullscreen := l.window, l.dialogParent, l.wasPaused, l.wasFullscreen;
      new;
      l.dialogParent := false;
      l.wasPaused := true;
      l.wasFullscreen := false;
    }

    function Value(): Lock
      reads this
    {
      Lock(dialogParent, wasPaused, wasFullscreen)
    }

    method CancelResume()
      modifies this
      ensures Value() == Cancelled(old(Value()))
    {
      wasPaused := true;
      wasFullscreen := false;
    }

    method Destroy()
      modifies window
      ensures window.Now() == Released(old(window.Now()), Value())
    {
      if wasFullscreen { window.fullscreen := true; }
      if !wasPaused { window.paused := false; }
    }
  }
}
