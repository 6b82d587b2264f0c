/** The window of the Linux futex (bootstrap/park.c:100-118, bootstrap/eventcount.h:75-107).

The futex compares the waiter count and not the epoch: what falls between the last look at
the word and the system call decides whether a wakeup is lost. */
module FutexWindow {
  import opened Options
  import opened EventCount

  // ----- the steps that led to a state -----

  /** The last index below `i` at which `step` was taken. */
  function Last(steps: seq<Step>, i: nat, step: Step): (r: int)
    requires i <= |steps|
    ensures -1 <= r < i && (r >= 0 ==> steps[r] == step)
    ensures forall k :: r < k < i ==> steps[k] != step
  {
    if i == 0 then -1 else if steps[i - 1] == step then i - 1 else Last(steps, i - 1, step)
  }

  predicate Of(step: Step, p: int) {
    (step.Publish? || step.Bump? || step.WakeEveryone? || step.WakeSomeone?) && step.p == p
  }

  /** The last index below `i` of a step of notifier `p`. */
  function LastOf(steps: seq<Step>, i: nat, p: int): (r: int)
    requires i <= |steps|
    ensures -1 <= r < i && (r >= 0 ==> Of(steps[r], p))
    ensures forall k :: r < k < i ==> !Of(steps[k], p)
  {
    if i == 0 then -1 else if Of(steps[i - 1], p) then i - 1 else LastOf(steps, i - 1, p)
  }

  /** Where a registered waiter found nothing, and where it read the word. */
  ghost predicate Looked(states: seq<State>, steps: seq<Step>, i: nat, w: int)
    requires i <= |steps| < |states| && w in states[i].waiters && !states[i].waiters[w].Prepared?
  {
    var x, f, j := states[i].waiters[w], Last(steps, i, FoundNone(w)), Last(steps, i, Load(w));
    && f >= 0 && states[f].published == x.seen
    && (forall r :: f < r <= i ==> w in states[r].waiters)
    && (x.Loaded? ==> f < j && Waiters(states[j].word) == x.val && Epoch(states[j].word) == x.epoch)
  }

  lemma {:induction false} WaiterLooked(parking: Parking, states: seq<State>, steps: seq<Step>, i: nat, w: int)
    requires IsRun(parking, states, steps) && i <= |steps|
    requires w in states[i].waiters && !states[i].waiters[w].Prepared?
    ensures Looked(states, steps, i, w)
  {
    hide Epoch, Waiters, AddWaiter, SubWaiter, BumpEpoch, Looked, IsRun;
    RunStep(parking, states, steps, i);
    if w in states[i - 1].waiters && !states[i - 1].waiters[w].Prepared? {
      WaiterLooked(parking, states, steps, i - 1, w);
    }
    LookedStep(parking, states, steps, i, w);
  }

  lemma RunStep(parking: Parking, states: seq<State>, steps: seq<Step>, i: nat)
    requires IsRun(parking, states, steps) && i <= |steps|
    ensures |states| == |steps| + 1
    ensures i == 0 ==> states[i] == START
    ensures i > 0 ==> Next(parking, states[i - 1], steps[i - 1]) == Some(states[i])
  {
    assert i > 0 ==> Leads(parking, states[i - 1], steps[i - 1], states[i]);
  }

  lemma LookedStep(parking: Parking, states: seq<State>, steps: seq<Step>, i: nat, w: int)
    requires |states| == |steps| + 1 && 0 < i <= |steps|
    requires Next(parking, states[i - 1], steps[i - 1]) == Some(states[i])
    requires w in states[i].waiters && !states[i].waiters[w].Prepared?
    requires w in states[i - 1].waiters && !states[i - 1].waiters[w].Prepared? ==> Looked(states, steps, i - 1, w)
    ensures Looked(states, steps, i, w)
  {
    hide Epoch, Waiters, AddWaiter, SubWaiter, BumpEpoch;
  }

  /** Where a notify published its work and bumped the epoch. */
  ghost predicate Began(states: seq<State>, steps: seq<Step>, i: nat, p: int)
    requires i <= |steps| < |states| && p in states[i].notifiers
  {
    var n, q := states[i].notifiers[p], LastOf(steps, i, p);
    && q >= 0
    && if n.Published? then steps[q].Publish? && states[q].published + 1 == n.work
       else
         var u := LastOf(steps, q, p);
         && steps[q].Bump? && Epoch(states[q].word) == n.prior
         && u >= 0 && steps[u].Publish? && states[u].published + 1 == n.work
  }

  lemma {:induction false} NotifierBegan(parking: Parking, states: seq<State>, steps: seq<Step>, i: nat, p: int)
    requires IsRun(parking, states, steps) && i <= |steps| && p in states[i].notifiers
    ensures Began(states, steps, i, p)
  {
    hide Epoch, Waiters, AddWaiter, SubWaiter, BumpEpoch, Began, IsRun;
    RunStep(parking, states, steps, i);
    if p in states[i - 1].notifiers {
      NotifierBegan(parking, states, steps, i - 1, p);
    }
    BeganStep(parking, states, steps, i, p);
  }

  lemma BeganStep(parking: Parking, states: seq<State>, steps: seq<Step>, i: nat, p: int)
    requires |states| == |steps| + 1 && 0 < i <= |steps|
    requires Next(parking, states[i - 1], steps[i - 1]) == Some(states[i])
    requires p in states[i].notifiers
    requires p in states[i - 1].notifiers ==> Began(states, steps, i - 1, p)
    ensures Began(states, steps, i, p)
  {
    hide Epoch, Waiters, AddWaiter, SubWaiter, BumpEpoch;
  }

  /** The step ends a notify by a wake call that leaves nobody asleep. */
  ghost predicate Called(s: State, step: Step) {
    step.WakeEveryone? || (step.WakeSomeone? && forall w :: !Sleeping(s, w))
  }

  ghost predicate Ended(s: State, step: Step, d: Notice) {
    || (Called(s, step) && step.p in s.notifiers && s.notifiers[step.p].Waking?
        && d == Notice(s.notifiers[step.p].work, s.notifiers[step.p].prior))
    || (step.Bump? && |s.waiters| == 0 && step.p in s.notifiers && s.notifiers[step.p].Published?
        && d == Notice(s.notifiers[step.p].work, Epoch(s.word)))
  }

  lemma EndsStep(parking: Parking, s: State, step: Step, d: Notice)
    requires Inv(s) && Next(parking, s, step).Some?
    ensures d in Next(parking, s, step).value.done <==> d in s.done || Ended(s, step, d)
  {
    HalvesMoveApart(Epoch(s.word), |s.waiters|);
    assert Waiters(s.word) == |s.waiters|;
    hide Inv;
    EndsNotify(parking, s, step, d);
  }

  lemma EndsNotify(parking: Parking, s: State, step: Step, d: Notice)
    requires Waiters(s.word) == |s.waiters| && Next(parking, s, step).Some?
    ensures d in Next(parking, s, step).value.done <==> d in s.done || Ended(s, step, d)
  {
    hide Epoch, Waiters, AddWaiter, SubWaiter, BumpEpoch, NextWaiter, NextNotifier;
    if NextWaiter(parking, s, step).Some? {
      WaiterEndsNone(parking, s, step, d);
    } else {
      NotifierEnds(s, step, d);
    }
  }

  lemma WaiterEndsNone(parking: Parking, s: State, step: Step, d: Notice)
    requires NextWaiter(parking, s, step).Some?
    ensures NextWaiter(parking, s, step).value.done == s.done && !Ended(s, step, d)
  {
    hide Epoch, Waiters, AddWaiter, SubWaiter, BumpEpoch, Sleeping;
  }

  lemma NotifierEnds(s: State, step: Step, d: Notice)
    requires Waiters(s.word) == |s.waiters| && NextNotifier(s, step).Some?
    ensures d in NextNotifier(s, step).value.done <==> d in s.done || Ended(s, step, d)
  {
    hide Epoch, Waiters, AddWaiter, SubWaiter, BumpEpoch, Roused;
  }

  lemma {:induction false} DoneEnded(parking: Parking, states: seq<State>, steps: seq<Step>, i: nat, d: Notice)
    requires IsRun(parking, states, steps) && i <= |steps| && d in states[i].done
    ensures exists m :: 0 <= m < i && Ended(states[m], steps[m], d)
  {
    hide Inv, Next, IsRun, Ended;
    RunStep(parking, states, steps, i);
    RunKeepsInv(parking, states, steps, i - 1);
    EndsStep(parking, states[i - 1], steps[i - 1], d);
    if d in states[i - 1].done {
      DoneEnded(parking, states, steps, i - 1, d);
    }
  }

  lemma {:induction false} Forward(parking: Parking, states: seq<State>, steps: seq<Step>, i: nat, k: nat)
    requires IsRun(parking, states, steps) && i <= k <= |steps|
    ensures states[i].published <= states[k].published && Epoch(states[i].word) <= Epoch(states[k].word)
    ensures i < k && steps[i].Publish? ==> states[i].published < states[k].published
    ensures i < k && steps[i].Bump? ==> Epoch(states[i].word) < Epoch(states[k].word)
    decreases k - i
  {
    hide Inv, IsRun, Epoch;
    if i < k {
      RunStep(parking, states, steps, i + 1);
      RunKeepsInv(parking, states, steps, i);
      PublishedGrows(parking, states[i], steps[i]);
      Forward(parking, states, steps, i + 1, k);
      ForwardStep(parking, states[i], steps[i]);
    }
  }

  lemma ForwardStep(parking: Parking, s: State, step: Step)
    requires Inv(s) && Next(parking, s, step).Some?
    ensures step.Publish? ==> s.published < Next(parking, s, step).value.published
    ensures step.Bump? ==> Epoch(s.word) < Epoch(Next(parking, s, step).value.word)
  {
    WordKept(parking, s, step);
    hide Inv, Epoch, Waiters;
  }

  // ----- exactly when a wakeup is lost -----

  /** The system call may put the thread to sleep: the waiter count has moved and it will
  not sleep, or no finished notify-all is about work the thread has not seen. */
  ghost predicate SafeToSleep(s: State, w: int) {
    w in s.waiters && s.waiters[w].Loaded? ==>
      Waiters(s.word) != s.waiters[w].val || forall d :: d in s.done ==> s.waiters[w].seen >= d.work
  }

  /** A notify ends at `m` with its wake call, having published after `f` and bumped the epoch
  after `j`. */
  ghost predicate NotifiedSince(states: seq<State>, steps: seq<Step>, f: nat, j: nat, m: nat)
    requires m < |steps| < |states|
  {
    && Called(states[m], steps[m])
    && var k := LastOf(steps, m, steps[m].p);
    && k > j && steps[k].Bump?
    && var q := LastOf(steps, k, steps[m].p);
    q > f && steps[q].Publish?
  }

  /** The system call of step `i` finds the waiter count that was loaded before it, and in
  between a whole notify has gone by: published after the thread found nothing, bumped
  after its last look at the word, woken before the call. */
  ghost predicate SleepsThrough(states: seq<State>, steps: seq<Step>, i: nat)
    requires i < |steps| < |states|
  {
    && steps[i].Sleep?
    && var f, j := Last(steps, i, FoundNone(steps[i].w)), Last(steps, i, Load(steps[i].w));
    && 0 <= f < j && Waiters(states[i].word) == Waiters(states[j].word)
    && exists m :: 0 <= m < i && NotifiedSince(states, steps, f, j, m)
  }

  /** With the futex, a run loses a wakeup exactly when one of its system calls sleeps
  through a notify. */
  lemma FutexExact(states: seq<State>, steps: seq<Step>)
    requires IsRun(OnWaiters, states, steps)
    ensures (forall k :: 0 <= k < |states| ==> !LostWakeup(states[k]))
            <==> (forall i :: 0 <= i < |steps| ==> !SleepsThrough(states, steps, i))
  {
    hide LostWakeup, SafeToSleep, Next, SleepsThrough;
    if i :| 0 <= i < |steps| && steps[i].Sleep? && !SafeToSleep(states[i], steps[i].w) {
      UnsafeIsThrough(states, steps, i);
      assert Leads(OnWaiters, states[i], steps[i], states[i + 1]);
      UnsafeSleep(states[i], steps[i].w);
      assert LostWakeup(states[i + 1]);
    } else {
      forall k | 0 <= k < |states| ensures !LostWakeup(states[k]) {
        SafeRun(states, steps, k);
      }
      forall i | 0 <= i < |steps| ensures !SleepsThrough(states, steps, i) {
        if SleepsThrough(states, steps, i) {
          ThroughIsUnsafe(states, steps, i);
        }
      }
    }
  }

  /** A call that sleeps through a notify is made in a later epoch than the last look at
  the word: a call that compared the epoch would have returned at once. */
  lemma SleptThroughEpoch(states: seq<State>, steps: seq<Step>, i: nat)
    requires IsRun(OnWaiters, states, steps) && i < |steps| && SleepsThrough(states, steps, i)
    ensures var j := Last(steps, i, Load(steps[i].w));
            && 0 <= j < i
            && Waiters(states[i].word) == Waiters(states[j].word) && Epoch(states[i].word) > Epoch(states[j].word)
  {
    hide Epoch, Waiters, Called;
    var j := Last(steps, i, Load(steps[i].w));
    ThroughHasBump(states, steps, i);
    var k: nat :| j < k < i && steps[k].Bump?;
    Forward(OnWaiters, states, steps, j, k);
    Forward(OnWaiters, states, steps, k, i);
  }

  lemma ThroughHasBump(states: seq<State>, steps: seq<Step>, i: nat)
    requires |states| == |steps| + 1 && i < |steps| && SleepsThrough(states, steps, i)
    ensures exists k: nat :: Last(steps, i, Load(steps[i].w)) < k < i && steps[k].Bump?
  {
    hide Epoch, Waiters;
    var f, j := Last(steps, i, FoundNone(steps[i].w)), Last(steps, i, Load(steps[i].w));
    var m: nat :| m < i && NotifiedSince(states, steps, f, j, m);
    assert steps[LastOf(steps, m, steps[m].p)].Bump?;
  }

  /** So without a bump between the last look and the call nothing is lost. */
  lemma QuietWindowIsSafe(states: seq<State>, steps: seq<Step>)
    requires IsRun(OnWaiters, states, steps)
    requires forall i, k :: 0 <= i < |steps| && steps[i].Sleep? && Last(steps, i, Load(steps[i].w)) < k < i ==>
               !steps[k].Bump?
    ensures forall k :: 0 <= k < |states| ==> !LostWakeup(states[k])
  {
    FutexExact(states, steps);
    hide IsRun, LostWakeup;
    forall i: nat | i < |steps| ensures !SleepsThrough(states, steps, i) {
      if SleepsThrough(states, steps, i) {
        ThroughHasBump(states, steps, i);
      }
    }
  }

  lemma UnsafeIsThrough(states: seq<State>, steps: seq<Step>, i: nat)
    requires IsRun(OnWaiters, states, steps) && i < |steps| && steps[i].Sleep? && !SafeToSleep(states[i], steps[i].w)
    ensures SleepsThrough(states, steps, i)
  {
    hide Epoch, Waiters, Ended, Covers, Next;
    var w, s := steps[i].w, states[i];
    var d :| d in s.done && s.waiters[w].seen < d.work;
    RunStep(OnWaiters, states, steps, i);
    WaiterLooked(OnWaiters, states, steps, i, w);
    DoneEnded(OnWaiters, states, steps, i, d);
    var m: nat :| m < i && Ended(states[m], steps[m], d);
    RunKeepsInv(OnWaiters, states, steps, i);
    assert Covers(s, d.work, d.prior);
    EndedSince(states, steps, i, w, m, d);
    assert NotifiedSince(states, steps, Last(steps, i, FoundNone(w)), Last(steps, i, Load(w)), m);
  }

  /** A notify about work that the thread has not seen was published after the thread found
  nothing, and bumped after its last look. */
  lemma EndedSince(states: seq<State>, steps: seq<Step>, i: nat, w: int, m: nat, d: Notice)
    requires IsRun(OnWaiters, states, steps) && m < i < |steps|
    requires w in states[i].waiters && states[i].waiters[w].Loaded? && Looked(states, steps, i, w)
    requires Ended(states[m], steps[m], d) && states[i].waiters[w].seen < d.work && Covers(states[i], d.work, d.prior)
    ensures NotifiedSince(states, steps, Last(steps, i, FoundNone(w)), Last(steps, i, Load(w)), m)
  {
    hide Epoch, Waiters;
    var p, x, f, j := steps[m].p, states[i].waiters[w], Last(steps, i, FoundNone(w)), Last(steps, i, Load(w));
    NotifierBegan(OnWaiters, states, steps, m, p);
    var k := LastOf(steps, m, p);
    var q := if steps[m].Bump? then k else LastOf(steps, k, p);
    Forward(OnWaiters, states, steps, q, if q < f then f else q);
    assert f < q;
    NotEmpty(states[m].waiters, w);
    assert !steps[m].Bump?;
    Forward(OnWaiters, states, steps, k, if k < j then j else k);
  }

  lemma NotEmpty(m: map<int, Waiter>, w: int)
    requires w in m
    ensures |m| > 0
  {
  }

  lemma ThroughIsUnsafe(states: seq<State>, steps: seq<Step>, i: nat)
    requires IsRun(OnWaiters, states, steps) && i < |steps| && SleepsThrough(states, steps, i)
    ensures steps[i].Sleep? && !SafeToSleep(states[i], steps[i].w)
  {
    hide Epoch, Waiters, IsRun, Inv, AddWaiter, SubWaiter, BumpEpoch, Roused;
    var w := steps[i].w;
    RunStep(OnWaiters, states, steps, i + 1);
    WaiterLooked(OnWaiters, states, steps, i, w);
    var f, j := Last(steps, i, FoundNone(w)), Last(steps, i, Load(w));
    var m: nat :| m < i && NotifiedSince(states, steps, f, j, m);
    var p := steps[m].p;
    RunStep(OnWaiters, states, steps, m + 1);
    NotifierBegan(OnWaiters, states, steps, m, p);
    var d := Notice(states[m].notifiers[p].work, states[m].notifiers[p].prior);
    RunKeepsInv(OnWaiters, states, steps, m);
    EndsStep(OnWaiters, states[m], steps[m], d);
    DoneStays(OnWaiters, states, steps, m + 1, i);
    var q := LastOf(steps, LastOf(steps, m, p), p);
    Forward(OnWaiters, states, steps, f, q);
    assert d in states[i].done && states[i].waiters[w].seen < d.work;
  }

  lemma UnsafeSleep(s: State, w: int)
    requires Next(OnWaiters, s, Sleep(w)).Some? && !SafeToSleep(s, w)
    ensures LostWakeup(Next(OnWaiters, s, Sleep(w)).value)
  {
    hide Epoch, Waiters;
    var s' := Next(OnWaiters, s, Sleep(w)).value;
    var d :| d in s.done && s.waiters[w].seen < d.work;
    assert Sleeping(s', w) && d in s'.done;
  }

  lemma SafeStep(s: State, step: Step, w: int, d: Notice)
    requires Inv(s) && !LostWakeup(s) && Next(OnWaiters, s, step).Some?
    requires step.Sleep? ==> SafeToSleep(s, step.w)
    requires Sleeping(Next(OnWaiters, s, step).value, w) && d in Next(OnWaiters, s, step).value.done
    ensures Next(OnWaiters, s, step).value.waiters[w].seen >= d.work
  {
    hide Next, Epoch, Waiters, Inv;
    FallsAsleep(OnWaiters, s, step, w);
    Finishes(OnWaiters, s, step, d);
    DoneIsPast(s);
  }

  lemma {:induction false} SafeRun(states: seq<State>, steps: seq<Step>, k: nat)
    requires IsRun(OnWaiters, states, steps) && k < |states|
    requires forall i :: 0 <= i < |steps| && steps[i].Sleep? ==> SafeToSleep(states[i], steps[i].w)
    ensures !LostWakeup(states[k])
  {
    if k > 0 {
      hide Next, Inv, SafeToSleep;
      SafeRun(states, steps, k - 1);
      RunKeepsInv(OnWaiters, states, steps, k - 1);
      var s, step := states[k - 1], steps[k - 1];
      assert Leads(OnWaiters, s, step, states[k]);
      forall w, d | Sleeping(states[k], w) && d in states[k].done ensures states[k].waiters[w].seen >= d.work {
        SafeStep(s, step, w, d);
      }
    }
  }

  // ----- a run that loses a wakeup -----

  /** Thread 1 registers, finds nothing and reads the waiter count 1. */
  lemma WaiterReady() returns (states: seq<State>, steps: seq<Step>)
    ensures IsRun(OnWaiters, states, steps) && |steps| == 4
    ensures states[4] == State(1, 0, map[1 := Loaded(0, 0, 1)], map[], {})
  {
    steps := [Prepare(1), FoundNone(1), Commit(1), Load(1)];
    var s1 := State(1, 0, START.waiters[1 := Prepared(0)], map[], {});
    var s2 := s1.(waiters := s1.waiters[1 := Checked(0, 0)]);
    var s3 := s1.(waiters := s2.waiters[1 := Parked(0, 0)]);
    var s4 := s1.(waiters := s3.waiters[1 := Loaded(0, 0, 1)]);
    states := [START, s1, s2, s3, s4];
    assert Leads(OnWaiters, START, steps[0], s1);
    assert Leads(OnWaiters, s1, steps[1], s2);
    assert Leads(OnWaiters, s2, steps[2], s3);
    assert Leads(OnWaiters, s3, steps[3], s4);
  }

  lemma RunExtends(parking: Parking, states: seq<State>, steps: seq<Step>, step: Step, s': State)
    requires IsRun(parking, states, steps) && Leads(parking, states[|steps|], step, s')
    ensures IsRun(parking, states + [s'], steps + [step])
  {
    hide Leads;
  }

  /** A notify, of all or of one, runs to completion while thread 1 is about to make the
  system call. */
  lemma NotifyMeanwhile(s4: State, all: bool) returns (s5: State, s6: State, s7: State)
    requires s4 == State(1, 0, map[1 := Loaded(0, 0, 1)], map[], {})
    ensures Leads(OnWaiters, s4, Publish(2), s5) && Leads(OnWaiters, s5, Bump(2, all), s6)
    ensures Leads(OnWaiters, s6, WakeCall(all), s7)
    ensures s7.word == HALF + 1 && s7.waiters == s4.waiters && s7.done == {Notice(1, 0)}
  {
    OneWaiter();
    hide Epoch, Waiters, BumpEpoch, Roused, Sleeping;
    s5 := s4.(published := 1, notifiers := s4.notifiers[2 := Published(1)]);
    s6 := s5.(word := HALF + 1, notifiers := s5.notifiers[2 := Waking(1, 0, all)]);
    s7 := s6.(notifiers := s6.notifiers - {2}, done := s6.done + {Notice(1, 0)});
    WakesNobody(s6, s7, all);
  }

  lemma WakesNobody(s: State, s': State, all: bool)
    requires s.waiters == map[1 := Loaded(0, 0, 1)] && s.notifiers == map[2 := Waking(1, 0, all)]
    requires s' == s.(notifiers := s.notifiers - {2}, done := s.done + {Notice(1, 0)})
    ensures Leads(OnWaiters, s, WakeCall(all), s')
  {
    hide Epoch, Waiters;
    assert Roused(s.waiters) == s.waiters;
  }

  lemma ThenSleeps(s7: State) returns (s8: State)
    requires s7.word == HALF + 1 && s7.waiters == map[1 := Loaded(0, 0, 1)] && s7.done == {Notice(1, 0)}
    ensures Leads(OnWaiters, s7, Sleep(1), s8) && LostWakeup(s8)
  {
    OneWaiter();
    hide Epoch, Waiters, Sleeping;
    s8 := s7.(waiters := s7.waiters[1 := Asleep(0, 0)]);
    AsleepIsLost(s8);
  }

  lemma OneWaiter()
    ensures Epoch(1) == 0 && Waiters(1) == 1 && BumpEpoch(1) == HALF + 1
    ensures Epoch(HALF + 1) == 1 && Waiters(HALF + 1) == 1
  {
  }

  lemma AsleepIsLost(s: State)
    requires 1 in s.waiters && s.waiters[1] == Asleep(0, 0) && Notice(1, 0) in s.done
    ensures LostWakeup(s)
  {
    assert Sleeping(s, 1);
  }

  function WakeCall(all: bool): (r: Step) {
    if all then WakeEveryone(2) else WakeSomeone(2, 1)
  }

  /** The lost wakeup on Linux: a complete notify-all or notify-one between the last re-check and the
  system call leaves the waiter count at 1, so the thread goes to sleep on work it has
  not seen. */
  lemma FutexLosesWakeup(all: bool) returns (states: seq<State>, steps: seq<Step>)
    ensures IsRun(OnWaiters, states, steps) && LostWakeup(states[|steps|])
  {
    states, steps := WaiterReady();
    hide IsRun, Leads, LostWakeup;
    var s5, s6, s7 := NotifyMeanwhile(states[4], all);
    var s8 := ThenSleeps(s7);
    RunExtends(OnWaiters, states, steps, Publish(2), s5);
    states, steps := states + [s5], steps + [Publish(2)];
    RunExtends(OnWaiters, states, steps, Bump(2, all), s6);
    states, steps := states + [s6], steps + [Bump(2, all)];
    RunExtends(OnWaiters, states, steps, WakeCall(all), s7);
    states, steps := states + [s7], steps + [WakeCall(all)];
    RunExtends(OnWaiters, states, steps, Sleep(1), s8);
    states, steps := states + [s8], steps + [Sleep(1)];
  }
}
