/** Blocking pops: threads waiting on the queue's condition variable, as a step system in which every
    critical section is one step.  Wakeups may be spurious, and a signal may wake more than one. */
module WaitProtocol {
  import opened Words
  import opened QueueSpec

  type Tid = nat

  /** A thread inside `pop_wait`: the generation it read on entry, the true number of broadcasts made
      until then, its timeout argument, and whether its last wait ended by a wakeup. */
  datatype Waiter = Waiter(gen: u32, entered: nat, timeoutMs: int, signaled: bool)

  /** `broadcasts` counts wake_all and destroy calls; the C code keeps it in 32 bits.  `blocked` are the
      threads inside the wait, `woken` those past it that have not yet got the mutex back. */
  datatype State = State(q: Queue, broadcasts: nat, blocked: map<Tid, Waiter>, woken: map<Tid, Waiter>)

  datatype Step =
    | PushNotify(x: QItem, end: End, memory: bool, wakes: set<Tid>)
    | TakeNow
    | Enter(tid: Tid, timeoutMs: int)
    | Spurious(tid: Tid)
    | TimeOut(tid: Tid)
    | Resume(tid: Tid)
    | WakeAll
    | Destroy

  function Generation(s: State): (g: u32) {
    Wrap(s.broadcasts)
  }

  /** The threads of `who` leave the wait. */
  function Wake(s: State, who: set<Tid>, signaled: bool): (s': State) {
    s.(blocked := s.blocked - who,
       woken := s.woken + map t | t in who && t in s.blocked :: s.blocked[t].(signaled := signaled))
  }

  function Take(s: State): (s': State) {
    if s.q.items == [] then s else s.(q := s.q.(items := s.q.items[1..]))
  }

  /** `pop_wait` gives up: nothing queued, and a broadcast since entry or, with a timeout, no wakeup. */
  predicate GivesUp(s: State, t: Tid)
    requires t in s.woken
  {
    var w := s.woken[t];
    s.q.items == [] && ((w.timeoutMs > 0 && !w.signaled) || Generation(s) != w.gen)
  }

  ghost predicate Enabled(s: State, step: Step) {
    match step
    case PushNotify(x, end, memory, wakes) =>
      // a signal wakes at least one waiting thread if there is one
      && wakes <= s.blocked.Keys
      && (if Push(s.q, x, end, memory).ok then s.blocked.Keys != {} ==> wakes != {} else wakes == {})
    case TakeNow => true
    case Enter(t, _) => t !in s.blocked && t !in s.woken
    case Spurious(t) => t in s.blocked
    case TimeOut(t) => t in s.blocked && s.blocked[t].timeoutMs > 0
    case Resume(t) => t in s.woken
    case WakeAll => true
    case Destroy => true
  }

  ghost function Apply(s: State, step: Step): (s': State)
    requires Enabled(s, step)
  {
    match step
    case PushNotify(x, end, memory, wakes) => Wake(s.(q := Push(s.q, x, end, memory).q), wakes, true)
    case TakeNow => Take(s)
    case Enter(t, timeoutMs) =>
      if s.q.items != [] then Take(s)
      else if timeoutMs == 0 then s
      else s.(blocked := s.blocked[t := Waiter(Generation(s), s.broadcasts, timeoutMs, true)])
    case Spurious(t) => Wake(s, {t}, true)
    case TimeOut(t) => Wake(s, {t}, false)
    case Resume(t) =>
      var left := s.(woken := s.woken - {t});
      if s.q.items != [] then Take(left)
      else if GivesUp(s, t) then left
      else left.(blocked := s.blocked[t := s.woken[t]])
    case WakeAll => Wake(s.(broadcasts := s.broadcasts + 1), s.blocked.Keys, true)
    case Destroy =>
      Wake(s.(broadcasts := s.broadcasts + 1, q := s.q.(items := [])), s.blocked.Keys, true)
  }

  ghost predicate Initial(s: State) {
    s.broadcasts == 0 && s.blocked == map[] && s.woken == map[]
  }

  ghost predicate Next(s: State, s': State) {
    exists step :: Enabled(s, step) && s' == Apply(s, step)
  }

  ghost predicate IsRun(run: seq<State>) {
    && |run| > 0 && Initial(run[0])
    && forall i | 0 < i < |run| :: StepInto(run, i)
  }

  ghost predicate StepInto(run: seq<State>, i: nat)
    requires 0 < i < |run|
  {
    Next(run[i - 1], run[i])
  }

  /** While any thread is blocked, the queued items are spoken for by threads already woken. */
  ghost predicate NoLostWakeup(s: State) {
    s.blocked != map[] ==> |s.q.items| <= |s.woken|
  }

  ghost predicate GenerationsAgree(waiters: map<Tid, Waiter>, broadcasts: nat) {
    forall t | t in waiters :: waiters[t].gen == Wrap(waiters[t].entered) && waiters[t].entered <= broadcasts
  }

  /** A zero timeout never waits, and a wait without a timeout ends only by a wakeup. */
  ghost predicate TimeoutsAgree(waiters: map<Tid, Waiter>) {
    forall t | t in waiters :: waiters[t].timeoutMs != 0 && (waiters[t].timeoutMs < 0 ==> waiters[t].signaled)
  }

  ghost predicate Inv(s: State) {
    && NoLostWakeup(s)
    && TimeoutsAgree(s.blocked) && TimeoutsAgree(s.woken)
    && s.blocked.Keys !! s.woken.Keys
    && GenerationsAgree(s.blocked, s.broadcasts)
    && GenerationsAgree(s.woken, s.broadcasts)
  }

  // ------------------------------------------------------------ steps

  lemma WakeCounts(s: State, who: set<Tid>, signaled: bool)
    requires who <= s.blocked.Keys && s.blocked.Keys !! s.woken.Keys
    ensures
      var s' := Wake(s, who, signaled);
      && s'.blocked.Keys == s.blocked.Keys - who
      && s'.woken.Keys == s.woken.Keys + who
      && |s'.woken| == |s.woken| + |who|
  {
    var s' := Wake(s, who, signaled);
    assert s'.woken.Keys == s.woken.Keys + who;
    assert |s.woken.Keys + who| == |s.woken.Keys| + |who|;
    assert |s'.woken| == |s'.woken.Keys| && |s.woken| == |s.woken.Keys|;
  }

  lemma PushCount(q: Queue, x: QItem, end: End, memory: bool)
    ensures |Push(q, x, end, memory).q.items| <= |q.items| + if Push(q, x, end, memory).ok then 1 else 0
  {
  }

  lemma PushNotifyInv(s: State, x: QItem, end: End, memory: bool, wakes: set<Tid>)
    requires Inv(s) && Enabled(s, PushNotify(x, end, memory, wakes))
    ensures Inv(Apply(s, PushNotify(x, end, memory, wakes)))
  {
    PushCount(s.q, x, end, memory);
    SignalInv(s, Push(s.q, x, end, memory).q, wakes, Push(s.q, x, end, memory).ok);
  }

  /** At most one item more, and a signal if there is one more: the woken threads keep up. */
  lemma SignalInv(s: State, q: Queue, wakes: set<Tid>, ok: bool)
    requires Inv(s) && wakes <= s.blocked.Keys
    requires |q.items| <= |s.q.items| + (if ok then 1 else 0)
    requires ok && s.blocked.Keys != {} ==> wakes != {}
    ensures Inv(Wake(s.(q := q), wakes, true))
  {
    var s' := Wake(s.(q := q), wakes, true);
    WakeCounts(s.(q := q), wakes, true);
    if s'.blocked != map[] {
      var t :| t in s'.blocked;
      assert t in s.blocked.Keys;
      assert ok ==> |wakes| >= 1 by { if wakes == {} { assert !ok; } }
    }
  }

  lemma WakeTimeouts(s: State, who: set<Tid>, signaled: bool)
    requires TimeoutsAgree(s.blocked) && TimeoutsAgree(s.woken) && who <= s.blocked.Keys
    requires signaled || forall t | t in who :: s.blocked[t].timeoutMs > 0
    ensures TimeoutsAgree(Wake(s, who, signaled).blocked) && TimeoutsAgree(Wake(s, who, signaled).woken)
  {
  }

  lemma WakeGenerations(s: State, who: set<Tid>, signaled: bool)
    requires GenerationsAgree(s.blocked, s.broadcasts) && GenerationsAgree(s.woken, s.broadcasts)
    requires who <= s.blocked.Keys
    ensures GenerationsAgree(Wake(s, who, signaled).blocked, s.broadcasts)
    ensures GenerationsAgree(Wake(s, who, signaled).woken, s.broadcasts)
  {
  }

  lemma WakeLosesNone(s: State, who: set<Tid>, signaled: bool)
    requires NoLostWakeup(s) && who <= s.blocked.Keys && s.blocked.Keys !! s.woken.Keys
    ensures NoLostWakeup(Wake(s, who, signaled))
    ensures Wake(s, who, signaled).blocked.Keys !! Wake(s, who, signaled).woken.Keys
  {
    WakeCounts(s, who, signaled);
    var s' := Wake(s, who, signaled);
    if s'.blocked != map[] {
      var t :| t in s'.blocked;
      assert t in s.blocked;
    }
  }

  lemma WakeInv(s: State, who: set<Tid>, signaled: bool)
    requires Inv(s) && who <= s.blocked.Keys
    requires signaled || forall t | t in who :: s.blocked[t].timeoutMs > 0
    ensures Inv(Wake(s, who, signaled))
  {
    WakeTimeouts(s, who, signaled);
    WakeGenerations(s, who, signaled);
    WakeLosesNone(s, who, signaled);
  }

  lemma WakeEveryone(s: State)
    requires s.blocked.Keys !! s.woken.Keys
    requires GenerationsAgree(s.blocked, s.broadcasts) && GenerationsAgree(s.woken, s.broadcasts)
    requires TimeoutsAgree(s.blocked) && TimeoutsAgree(s.woken)
    ensures Inv(Wake(s, s.blocked.Keys, true)) && Wake(s, s.blocked.Keys, true).blocked == map[]
  {
    WakeCounts(s, s.blocked.Keys, true);
    assert Wake(s, s.blocked.Keys, true).blocked == map[];
  }

  lemma ResumeInv(s: State, t: Tid)
    requires Inv(s) && t in s.woken
    ensures Inv(Apply(s, Resume(t)))
  {
    var left := s.woken - {t};
    assert left.Keys == s.woken.Keys - {t};
    assert |left| == |s.woken| - 1;
  }

  lemma StepInv(s: State, step: Step)
    requires Inv(s) && Enabled(s, step)
    ensures Inv(Apply(s, step))
  {
    match step
    case PushNotify(x, end, memory, wakes) => PushNotifyInv(s, x, end, memory, wakes);
    case TakeNow =>
    case Enter(t, timeoutMs) =>
    case Spurious(t) => WakeInv(s, {t}, true);
    case TimeOut(t) => WakeInv(s, {t}, false);
    case Resume(t) => ResumeInv(s, t);
    case WakeAll => WakeEveryone(s.(broadcasts := s.broadcasts + 1));
    case Destroy => WakeEveryone(s.(broadcasts := s.broadcasts + 1, q := s.q.(items := [])));
  }

  lemma InitialInv(s: State)
    requires Initial(s)
    ensures Inv(s)
  {
  }

  lemma NextInv(s: State, s': State)
    ensures Inv(s) && Next(s, s') ==> Inv(s')
  {
    if Inv(s) && Next(s, s') {
      var step :| Enabled(s, step) && s' == Apply(s, step);
      StepInv(s, step);
    }
  }

  lemma RunStep(run: seq<State>, i: nat)
    ensures IsRun(run) && 0 < i < |run| ==> Next(run[i - 1], run[i])
  {
    if IsRun(run) && 0 < i < |run| { assert StepInto(run, i); }
  }

  lemma {:induction false} RunInv(run: seq<State>, i: nat)
    requires IsRun(run) && i < |run|
    ensures Inv(run[i])
  {
    if i == 0 {
      InitialInv(run[0]);
    } else {
      RunInv(run, i - 1);
      RunStep(run, i);
      NextInv(run[i - 1], run[i]);
    }
  }

  // ------------------------------------------------------------ theorems

  /** No lost wakeup, in every reachable state; so with nobody on the way to the mutex, a blocked thread
      means an empty queue. */
  lemma NoLostWakeups(run: seq<State>, i: nat)
    requires IsRun(run) && i < |run| && run[i].blocked != map[]
    ensures |run[i].q.items| <= |run[i].woken|
    ensures run[i].woken == map[] ==> run[i].q.items == []
  {
    RunInv(run, i);
  }

  /** An untimed wait gives up only on an empty queue after a wake_all or destroy since it began; and
      exactly then, short of 2^32 of them. */
  lemma UntimedFailure(run: seq<State>, i: nat, t: Tid)
    requires IsRun(run) && i < |run| && t in run[i].woken && run[i].woken[t].timeoutMs < 0
    ensures
      var s := run[i];
      var since := s.broadcasts - s.woken[t].entered;
      && since >= 0
      && (GivesUp(s, t) <==> s.q.items == [] && since % 0x1_0000_0000 != 0)
      && (since < 0x1_0000_0000 ==> (GivesUp(s, t) <==> s.q.items == [] && since > 0))
  {
    RunInv(run, i);
    var s := run[i];
    assert s.woken[t].gen == Wrap(s.woken[t].entered);
    SameGeneration(s.broadcasts, s.woken[t].entered);
  }

  /** A timed wait gives up exactly on an empty queue, after its time ran out or after a wake_all or destroy
      since it began; and every waiting thread is one or the other, a zero timeout never waits. */
  lemma TimedFailure(run: seq<State>, i: nat, t: Tid)
    requires IsRun(run) && i < |run| && t in run[i].woken
    ensures run[i].woken[t].timeoutMs != 0
    ensures run[i].woken[t].timeoutMs > 0 ==>
              var s := run[i];
              var since := s.broadcasts - s.woken[t].entered;
              && since >= 0
              && (GivesUp(s, t) <==> s.q.items == [] && (!s.woken[t].signaled || since % 0x1_0000_0000 != 0))
  {
    RunInv(run, i);
    var s := run[i];
    assert s.woken[t].gen == Wrap(s.woken[t].entered);
    SameGeneration(s.broadcasts, s.woken[t].entered);
  }

  /** What a call of `pop_wait` does at once: it takes the first item if there is one, fails on an empty
      queue with a zero timeout, and otherwise waits with the timeout it was given. */
  lemma EnterMeaning(s: State, t: Tid, timeoutMs: int)
    requires Enabled(s, Enter(t, timeoutMs))
    ensures
      var s' := Apply(s, Enter(t, timeoutMs));
      && s'.woken == s.woken && s'.broadcasts == s.broadcasts
      && (s.q.items != [] ==> s.q.items == [s.q.items[0]] + s'.q.items && s'.blocked == s.blocked)
      && (s.q.items == [] && timeoutMs == 0 ==> s' == s)
      && (s.q.items == [] && timeoutMs != 0 ==>
            && s'.q == s.q && s'.blocked.Keys == s.blocked.Keys + {t}
            && s'.blocked[t].timeoutMs == timeoutMs && s'.blocked[t].entered == s.broadcasts
            && forall u | u in s.blocked :: s'.blocked[u] == s.blocked[u])
  {
  }

  /** What it does when it has the mutex back: it takes the first item if there is one, fails if it gives up,
      and otherwise waits again. */
  lemma ResumeMeaning(s: State, t: Tid)
    requires Inv(s) && t in s.woken
    ensures
      var s' := Apply(s, Resume(t));
      && s'.woken == s.woken - {t}
      && (s.q.items != [] ==> s.q.items == [s.q.items[0]] + s'.q.items && s'.blocked == s.blocked)
      && (s.q.items == [] ==> s'.q == s.q && (GivesUp(s, t) <==> t !in s'.blocked))
      && (t in s'.blocked ==> s'.blocked == s.blocked[t := s.woken[t]])
  {
    assert t !in s.blocked.Keys;
  }

  /** Thread t has been freed: it is on its way out and, with nothing queued, gives up, short of a multiple of
      2^32 broadcasts since it entered. */
  ghost predicate Freed(s: State, t: Tid) {
    && s.blocked == map[] && t in s.woken
    && (s.q.items == [] && !FullTurns(s, t) ==> GivesUp(s, t))
  }

  /** A wake_all frees every thread that was blocked, and leaves the queue alone. */
  lemma WakeAllFrees(s: State, t: Tid)
    requires GenerationsAgree(s.blocked, s.broadcasts) && t in s.blocked
    ensures Freed(Apply(s, WakeAll), t) && Apply(s, WakeAll).q == s.q
  {
    WokenFreed(s.(broadcasts := s.broadcasts + 1), t);
  }

  /** So does a destroy, which empties it. */
  lemma DestroyFrees(s: State, t: Tid)
    requires GenerationsAgree(s.blocked, s.broadcasts) && t in s.blocked
    ensures Freed(Apply(s, Destroy), t) && Apply(s, Destroy).q.items == []
  {
    WokenFreed(s.(broadcasts := s.broadcasts + 1, q := s.q.(items := [])), t);
  }

  lemma WokenFreed(s: State, t: Tid)
    requires t in s.blocked && s.blocked[t].gen == Wrap(s.blocked[t].entered) && s.blocked[t].entered <= s.broadcasts
    ensures Freed(Wake(s, s.blocked.Keys, true), t) && Wake(s, s.blocked.Keys, true).q == s.q
  {
    AllWoken(s, t);
    FreedGivesUp(Wake(s, s.blocked.Keys, true), t);
  }

  /** The broadcasts since t entered are a multiple of 2^32, so their 32-bit count looks unchanged. */
  predicate FullTurns(s: State, t: Tid)
    requires t in s.woken
  {
    (s.broadcasts - s.woken[t].entered) % 0x1_0000_0000 == 0
  }

  lemma FreedGivesUp(s: State, t: Tid)
    requires t in s.woken && s.woken[t].gen == Wrap(s.woken[t].entered) && s.woken[t].entered <= s.broadcasts
    ensures s.q.items == [] && !FullTurns(s, t) ==> GivesUp(s, t)
  {
    SameGeneration(s.broadcasts, s.woken[t].entered);
  }

  lemma AllWoken(s: State, t: Tid)
    requires t in s.blocked
    ensures
      var s' := Wake(s, s.blocked.Keys, true);
      && s'.blocked == map[] && t in s'.woken && s'.woken[t] == s.blocked[t].(signaled := true)
      && s'.q == s.q && s'.broadcasts == s.broadcasts
  {
    assert Wake(s, s.blocked.Keys, true).blocked.Keys == {};
  }

  lemma SameGeneration(x: nat, y: nat)
    requires y <= x
    ensures Wrap(x) == Wrap(y) <==> (x - y) % 0x1_0000_0000 == 0
  {
    WrapIsMod(x);
    WrapIsMod(y);
  }

  /** A plain try_push, which signals nobody, loses a wakeup exactly when a thread is blocked, the items
      queued are all spoken for, and the new one finds room and memory: then it stays queued beside a
      blocked thread.  The queue that threads wait on must be fed by the notifying pushes. */
  lemma PlainPushCondition(s: State, x: QItem, end: End, memory: bool)
    requires Inv(s)
    ensures NoLostWakeup(s.(q := Push(s.q, x, end, memory).q))
            <==> !(s.blocked != map[] && |s.q.items| == |s.woken| && TakesOneMore(s.q, x, memory))
  {
    PushGrowth(s.q, x, end, memory);
  }
}
