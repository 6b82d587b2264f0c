/** Monitor registration racing with the target's death (bootstrap/actor.c:314-336, 340-409,
471-501 and the caller at bootstrap/primitives.c:3565-3576). */
module MonitorRace {
  // A registration, the death and the snapshot of the monitor list are critical sections under
  // the target's lock, so each is one step; the sends happen one by one outside it.

  import opened Options

  const MAX_MONITORS: nat := 32

  /** What a call of `actor_add_monitor` did: `Refused` returned false, `Added` put the
  watcher on the list, `Dropped` returned true although the list was full. */
  datatype Outcome = Refused | Added | Dropped

  datatype Phase = Living | Dead | Sending(rest: seq<nat>)

  /** Registrations are numbered; `downs` counts the :DOWN messages sent for each. */
  datatype State = State(
    phase: Phase, monitors: seq<nat>, outcomes: map<nat, Outcome>,
    answered: set<nat>, downs: multiset<nat>)

  const START := State(Living, [], map[], {}, multiset{})

  datatype Step =
    | Register(r: nat)     // actor_add_monitor under the lock
    | AnswerRefused(r: nat) // the caller's immediate :DOWN
    | Die                  // alive := false under the lock
    | Snapshot             // copy and clear the list under the lock
    | SendNext             // one :DOWN of the snapshot

  function Next(s: State, step: Step): (r: Option<State>) {
    match step
    case Register(r) =>
      if r in s.outcomes then None
      else if !s.phase.Living? then Some(s.(outcomes := s.outcomes[r := Refused]))
      else if |s.monitors| < MAX_MONITORS then
        Some(s.(monitors := s.monitors + [r], outcomes := s.outcomes[r := Added]))
      else Some(s.(outcomes := s.outcomes[r := Dropped]))
    case AnswerRefused(r) =>
      if r in s.outcomes && s.outcomes[r].Refused? && r !in s.answered then
        Some(s.(answered := s.answered + {r}, downs := s.downs + multiset{r}))
      else None
    case Die => if s.phase.Living? then Some(s.(phase := Dead)) else None
    case Snapshot =>
      if s.phase.Dead? then Some(s.(phase := Sending(s.monitors), monitors := [])) else None
    case SendNext =>
      if s.phase.Sending? && s.phase.rest != [] then
        Some(s.(phase := Sending(s.phase.rest[1..]), downs := s.downs + multiset{s.phase.rest[0]}))
      else None
  }

  function Times(xs: seq<nat>, r: nat): (n: nat) { multiset(xs)[r] }

  /** The :DOWN messages sent for `r` and still owed to it: on the list, in the unsent
  snapshot, or by the caller of a refused registration. */
  function Account(s: State, r: nat): (n: nat) {
    s.downs[r] + Times(s.monitors, r) + (if s.phase.Sending? then Times(s.phase.rest, r) else 0)
    + if r in s.outcomes && s.outcomes[r].Refused? && r !in s.answered then 1 else 0
  }

  function Due(s: State, r: nat): (n: nat) {
    if r in s.outcomes && !s.outcomes[r].Dropped? then 1 else 0
  }

  /** Every registration is accounted for exactly once. */
  ghost predicate Inv(s: State) {
    && (forall r :: Account(s, r) == Due(s, r))
    && (forall r :: r in s.answered ==> r in s.outcomes)
    && |s.monitors| <= MAX_MONITORS
  }

  lemma TimesOfParts(xs: seq<nat>, q: nat, r: nat)
    ensures Times(xs + [q], r) == Times(xs, r) + if q == r then 1 else 0
    ensures xs != [] ==> Times(xs, r) == Times(xs[1..], r) + if xs[0] == r then 1 else 0
    ensures Times([], r) == 0
  {
    if xs != [] {
      assert xs == [xs[0]] + xs[1..];
    }
  }

  lemma RegisterKept(s: State, q: nat, r: nat)
    requires Next(s, Register(q)).Some? && Account(s, r) == Due(s, r) && (r in s.answered ==> r in s.outcomes)
    ensures var s' := Next(s, Register(q)).value; Account(s', r) == Due(s', r)
  {
    TimesOfParts(s.monitors, q, r);
    hide Times;
  }

  lemma AnswerKept(s: State, q: nat, r: nat)
    requires Next(s, AnswerRefused(q)).Some? && Account(s, r) == Due(s, r)
    ensures var s' := Next(s, AnswerRefused(q)).value; Account(s', r) == Due(s', r)
  {
    hide Times;
  }

  lemma SendKept(s: State, r: nat)
    requires Next(s, SendNext).Some? && Account(s, r) == Due(s, r)
    ensures var s' := Next(s, SendNext).value; Account(s', r) == Due(s', r)
  {
    TimesOfParts(s.phase.rest, r, r);
    hide Times;
  }

  lemma AccountKept(s: State, step: Step, r: nat)
    requires Next(s, step).Some? && Account(s, r) == Due(s, r) && (r in s.answered ==> r in s.outcomes)
    ensures var s' := Next(s, step).value; Account(s', r) == Due(s', r)
  {
    match step
    case Register(q) => RegisterKept(s, q, r);
    case AnswerRefused(q) => AnswerKept(s, q, r);
    case SendNext => SendKept(s, r);
    case _ => TimesOfParts(s.monitors, r, r);
  }

  lemma NextKeepsInv(s: State, step: Step)
    requires Inv(s) && Next(s, step).Some?
    ensures Inv(Next(s, step).value)
  {
    var s' := Next(s, step).value;
    forall r ensures Account(s', r) == Due(s', r) {
      assert Account(s, r) == Due(s, r);
      AccountKept(s, step, r);
    }
  }

  ghost predicate IsRun(states: seq<State>, steps: seq<Step>) {
    && |states| == |steps| + 1 && states[0] == START
    && (forall i :: 0 <= i < |steps| ==> Leads(states[i], steps[i], states[i + 1]))
  }

  ghost predicate Leads(s: State, step: Step, s': State) {
    Next(s, step) == Some(s')
  }

  lemma {:induction false} RunKeepsInv(states: seq<State>, steps: seq<Step>, k: nat)
    requires IsRun(states, steps) && k < |states|
    ensures Inv(states[k])
  {
    if k > 0 {
      hide Next, Inv;
      RunKeepsInv(states, steps, k - 1);
      assert Leads(states[k - 1], steps[k - 1], states[k]);
      NextKeepsInv(states[k - 1], steps[k - 1]);
    }
  }

  /** Everything that will be sent has been sent. */
  predicate Settled(s: State) {
    s.phase == Sending([]) && forall r :: r in s.outcomes && s.outcomes[r].Refused? ==> r in s.answered
  }

  /** The list stays empty once the snapshot has been taken. */
  lemma {:induction false} SettledMonitors(states: seq<State>, steps: seq<Step>, k: nat)
    requires IsRun(states, steps) && k < |states|
    ensures states[k].phase.Sending? ==> states[k].monitors == []
  {
    if k > 0 {
      SettledMonitors(states, steps, k - 1);
      assert Leads(states[k - 1], steps[k - 1], states[k]);
    }
  }

  /** In every interleaving no registration is told twice; once the death has been dealt
  with, each registration has been told exactly once unless it was dropped. */
  lemma ToldExactlyOnce(states: seq<State>, steps: seq<Step>, k: nat, r: nat)
    requires IsRun(states, steps) && k < |states| && r in states[k].outcomes
    ensures states[k].downs[r] <= 1
    ensures Settled(states[k]) ==> states[k].downs[r] == if states[k].outcomes[r].Dropped? then 0 else 1
  {
    RunKeepsInv(states, steps, k);
    assert Account(states[k], r) == Due(states[k], r);
    SettledMonitors(states, steps, k);
  }

  /** An outcome never changes afterwards. */
  lemma {:induction false} OutcomeIsFinal(states: seq<State>, steps: seq<Step>, j: nat, k: nat, r: nat)
    requires IsRun(states, steps) && j <= k < |states| && r in states[j].outcomes
    ensures r in states[k].outcomes && states[k].outcomes[r] == states[j].outcomes[r]
    decreases k
  {
    if j < k {
      OutcomeIsFinal(states, steps, j, k - 1, r);
      assert Leads(states[k - 1], steps[k - 1], states[k]);
    }
  }

  /** The number of `Register` steps among the first `i`. */
  function Registrations(steps: seq<Step>, i: nat): (n: nat)
    requires i <= |steps|
    ensures n <= i
  {
    if i == 0 then 0 else Registrations(steps, i - 1) + if steps[i - 1].Register? then 1 else 0
  }

  /** While the target lives its list holds the first 32 registrations. */
  lemma {:induction false} ListLength(states: seq<State>, steps: seq<Step>, i: nat)
    requires IsRun(states, steps) && i < |states|
    ensures states[i].phase.Living? <==> Die !in steps[..i]
    ensures states[i].phase.Living? ==>
              var n := Registrations(steps, i);
              |states[i].monitors| == if n < MAX_MONITORS then n else MAX_MONITORS
  {
    if i > 0 {
      ListLength(states, steps, i - 1);
      assert Leads(states[i - 1], steps[i - 1], states[i]);
      assert steps[..i] == steps[..i - 1] + [steps[i - 1]];
    }
  }

  /** Who is told: once the death has been dealt with, the watcher registered in step `i` has
  got its one :DOWN, unless 32 registrations came before it while the target lived, when it
  has got none. */
  lemma ToldUnlessListFull(states: seq<State>, steps: seq<Step>, i: nat, k: nat)
    requires IsRun(states, steps) && i < k < |states| && steps[i].Register? && Settled(states[k])
    ensures var full := states[i].phase.Living? && |states[i].monitors| == MAX_MONITORS;
            && (full <==> Die !in steps[..i] && Registrations(steps, i) >= MAX_MONITORS)
            && states[k].downs[steps[i].r] == if full then 0 else 1
  {
    assert Leads(states[i], steps[i], states[i + 1]);
    hide Inv, Account, Due;
    ListLength(states, steps, i);
    OutcomeIsFinal(states, steps, i + 1, k, steps[i].r);
    ToldExactlyOnce(states, steps, k, steps[i].r);
  }

  // ----- a run in which a watcher is never told -----

  lemma Extended(states: seq<State>, steps: seq<Step>, step: Step)
    requires IsRun(states, steps) && Next(states[|steps|], step).Some?
    ensures IsRun(states + [Next(states[|steps|], step).value], steps + [step])
  {
    hide Next;
    forall i | 0 <= i < |steps| + 1
      ensures Leads((states + [Next(states[|steps|], step).value])[i], (steps + [step])[i],
                    (states + [Next(states[|steps|], step).value])[i + 1]) {
      assert i < |steps| ==> Leads(states[i], steps[i], states[i + 1]);
    }
  }

  /** `n` watchers register one after the other. */
  lemma {:induction false} WatchersRegister(n: nat) returns (states: seq<State>, steps: seq<Step>)
    ensures IsRun(states, steps) && |steps| == n && states[n].phase.Living?
    ensures forall i :: 0 <= i < n ==> steps[i] == Register(i)
    ensures forall r :: r in states[n].outcomes ==> r < n && !states[n].outcomes[r].Refused?
    ensures Registrations(steps, n) == n
  {
    if n == 0 {
      states, steps := [START], [];
    } else {
      states, steps := WatchersRegister(n - 1);
      Extended(states, steps, Register(n - 1));
      RegistrationsKept(steps, [Register(n - 1)], n - 1);
      states, steps := states + [Next(states[n - 1], Register(n - 1)).value], steps + [Register(n - 1)];
    }
  }

  lemma {:induction false} RegistrationsKept(steps: seq<Step>, more: seq<Step>, i: nat)
    requires i <= |steps|
    ensures Registrations(steps + more, i) == Registrations(steps, i)
  {
    if i > 0 {
      RegistrationsKept(steps, more, i - 1);
    }
  }

  /** A run whose last state is `s` can be carried on, by sends alone, until all is sent. */
  lemma {:induction false} AllSent(states: seq<State>, steps: seq<Step>)
    returns (states': seq<State>, steps': seq<Step>)
    requires IsRun(states, steps) && states[|steps|].phase.Sending?
    requires forall r :: r in states[|steps|].outcomes ==> !states[|steps|].outcomes[r].Refused?
    ensures IsRun(states', steps') && steps <= steps' && Settled(states'[|steps'|])
    decreases |states[|steps|].phase.rest|
  {
    if states[|steps|].phase.rest == [] {
      states', steps' := states, steps;
    } else {
      Extended(states, steps, SendNext);
      states', steps' := AllSent(states + [Next(states[|steps|], SendNext).value], steps + [SendNext]);
    }
  }

  /** Thirty-three watchers register with a living target, all are told that they are
  registered, and the last is never told of the death. */
  lemma WatcherNeverTold() returns (states: seq<State>, steps: seq<Step>)
    ensures IsRun(states, steps) && |steps| > 32 && Settled(states[|steps|])
    ensures forall i :: 0 <= i < 33 ==>
              && steps[i] == Register(i) && states[i].phase.Living?
              && states[|steps|].downs[i] == if i == 32 then 0 else 1
  {
    var states33, steps33 := WatchersRegister(33);
    states, steps := states33, steps33;
    Extended(states, steps, Die);
    states, steps := states + [Next(states[33], Die).value], steps + [Die];
    Extended(states, steps, Snapshot);
    states, steps := states + [Next(states[34], Snapshot).value], steps + [Snapshot];
    states, steps := AllSent(states, steps);
    assert steps33 <= steps;
    forall i | 0 <= i < 33
      ensures && steps[i] == Register(i) && states[i].phase.Living?
              && states[|steps|].downs[i] == if i == 32 then 0 else 1
    {
      PrefixRegisters(states33, steps33, states, steps, i);
    }
  }

  lemma PrefixRegisters(states0: seq<State>, steps0: seq<Step>, states: seq<State>, steps: seq<Step>, i: nat)
    requires IsRun(states, steps) && Settled(states[|steps|]) && steps0 <= steps && |steps0| == 33 && i < 33
    requires forall k :: 0 <= k < 33 ==> steps0[k] == Register(k)
    ensures steps[i] == Register(i) && states[i].phase.Living?
    ensures states[|steps|].downs[i] == if i == 32 then 0 else 1
  {
    assert forall k :: 0 <= k < 33 ==> steps[k] == Register(k);
    hide Settled, Next;
    ListLength(states, steps, i);
    OnlyRegisters(steps, i);
    ToldUnlessListFull(states, steps, i, |steps|);
  }

  lemma {:induction false} OnlyRegisters(steps: seq<Step>, i: nat)
    requires i <= |steps| && forall k :: 0 <= k < i ==> steps[k] == Register(k)
    ensures Registrations(steps, i) == i && Die !in steps[..i]
  {
    if i > 0 {
      OnlyRegisters(steps, i - 1);
    }
  }
}
