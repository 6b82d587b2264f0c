/** The restart limit of a supervisor under several threads: the count is tested and
incremented without a lock (bootstrap/actor.c:612-639). */
module RestartRace {
  // One supervisor; any number of threads handle exits of its children.  The test, the load and
  // the store of the increment are separate steps.

  import opened Options
  import opened Sets

  type Tid = nat

  const SUP_MAX_RESTARTS: nat := 5

  /** `Passed`: the test has passed and the child has been found, so a restart will be
  counted; `Loaded`: the increment has loaded the count. */
  datatype Pc = Idle | Passed | Loaded(val: nat)

  /** `restarts` is the number of restarts counted so far, whatever `count` says. */
  datatype State = State(count: nat, pcs: map<Tid, Pc>, restarts: nat)

  /** `found` tells whether the dead child is still listed and to be restarted. */
  datatype Step = Handle(t: Tid, found: bool) | Continue(t: Tid)

  predicate Commits(s: State, step: Step) {
    step.Handle? && step.found && step.t in s.pcs && s.pcs[step.t].Idle? && s.count < SUP_MAX_RESTARTS
  }

  function Next(s: State, step: Step): (r: Option<State>) {
    if step.t !in s.pcs then None
    else
      match step
      case Handle(t, found) =>
        if !s.pcs[t].Idle? then None
        else if Commits(s, step) then Some(s.(pcs := s.pcs[t := Passed]))
        else Some(s)
      case Continue(t) =>
        match s.pcs[t]
        case Idle => None
        case Passed => Some(s.(pcs := s.pcs[t := Loaded(s.count)]))
        case Loaded(v) => Some(State(v + 1, s.pcs[t := Idle], s.restarts + 1))
  }

  /** The threads between their test and their store. */
  ghost function InFlight(s: State): (r: set<Tid>) {
    set t | t in s.pcs && !s.pcs[t].Idle?
  }

  // ----- runs -----

  ghost predicate Init(s: State) {
    s.count == 0 && s.restarts == 0 && forall t :: t in s.pcs ==> s.pcs[t].Idle?
  }

  ghost predicate Leads(s: State, step: Step, s': State) {
    Next(s, step) == Some(s')
  }

  ghost predicate IsRun(states: seq<State>, steps: seq<Step>) {
    && |states| == |steps| + 1 && Init(states[0])
    && (forall i :: 0 <= i < |steps| ==> Leads(states[i], steps[i], states[i + 1]))
  }

  /** The handlers that have passed the test before state `k`. */
  ghost function Committed(states: seq<State>, steps: seq<Step>, k: nat): (n: nat)
    requires k <= |steps| < |states|
  {
    if k == 0 then 0
    else Committed(states, steps, k - 1) + if Commits(states[k - 1], steps[k - 1]) then 1 else 0
  }

  lemma FlightMoves(s: State, step: Step, s': State)
    requires Leads(s, step, s')
    ensures s'.restarts + |InFlight(s')| == s.restarts + |InFlight(s)| + if Commits(s, step) then 1 else 0
  {
    if Commits(s, step) {
      assert InFlight(s') == InFlight(s) + {step.t};
    } else if step.Continue? && s.pcs[step.t].Loaded? {
      assert InFlight(s') == InFlight(s) - {step.t};
    } else {
      assert InFlight(s') == InFlight(s);
    }
  }

  /** Every handler that passes the test restarts: none is stopped by a later count. */
  lemma {:induction false} CommittedRestart(states: seq<State>, steps: seq<Step>, k: nat)
    requires IsRun(states, steps) && k <= |steps|
    ensures states[k].restarts + |InFlight(states[k])| == Committed(states, steps, k)
  {
    if k == 0 {
      assert InFlight(states[0]) == {};
    } else {
      CommittedRestart(states, steps, k - 1);
      assert Leads(states[k - 1], steps[k - 1], states[k]);
      FlightMoves(states[k - 1], steps[k - 1], states[k]);
    }
  }

  lemma {:induction false} CommittedGrows(states: seq<State>, steps: seq<Step>, j: nat, k: nat)
    requires j <= k <= |steps| < |states|
    ensures Committed(states, steps, j) <= Committed(states, steps, k)
    decreases k
  {
    if j < k {
      CommittedGrows(states, steps, j, k - 1);
    }
  }

  /** The step at which the number of handlers past the test went beyond the limit. */
  lemma {:induction false} SixthCommit(states: seq<State>, steps: seq<Step>, k: nat) returns (i: nat)
    requires k <= |steps| < |states| && Committed(states, steps, k) > SUP_MAX_RESTARTS
    ensures i < k && Commits(states[i], steps[i]) && Committed(states, steps, i) >= SUP_MAX_RESTARTS
  {
    if Committed(states, steps, k - 1) > SUP_MAX_RESTARTS {
      i := SixthCommit(states, steps, k - 1);
    } else {
      i := k - 1;
    }
  }

  /** A handler passes the test although the restarts made and those under way already fill
  the limit. */
  ghost predicate PassesTooLate(s: State, step: Step) {
    Commits(s, step) && s.restarts + |InFlight(s)| >= SUP_MAX_RESTARTS
  }

  /** A finished run has more than five restarts exactly if some handler passed the test
  too late. */
  lemma LimitBrokenExactly(states: seq<State>, steps: seq<Step>)
    requires IsRun(states, steps) && InFlight(states[|steps|]) == {}
    ensures states[|steps|].restarts > SUP_MAX_RESTARTS
            <==> exists i :: 0 <= i < |steps| && PassesTooLate(states[i], steps[i])
  {
    CommittedRestart(states, steps, |steps|);
    if states[|steps|].restarts > SUP_MAX_RESTARTS {
      var i := SixthCommit(states, steps, |steps|);
      CommittedRestart(states, steps, i);
      assert PassesTooLate(states[i], steps[i]);
    }
    if i: nat :| i < |steps| && PassesTooLate(states[i], steps[i]) {
      CommittedRestart(states, steps, i);
      CommittedGrows(states, steps, i + 1, |steps|);
    }
  }

  // ----- one at a time the limit holds -----

  /** No handler passes the test while another stands between its test and its store. */
  ghost predicate OneAtATime(states: seq<State>, steps: seq<Step>)
    requires |steps| < |states|
  {
    forall i :: 0 <= i < |steps| && Commits(states[i], steps[i]) ==> InFlight(states[i]) == {}
  }

  /** The count is the number of restarts, or one handler is about to make it so. */
  ghost predicate CountRight(s: State) {
    && s.count == s.restarts
    && (forall t, u :: t in InFlight(s) && u in InFlight(s) ==> t == u)
    && (forall t :: t in InFlight(s) ==> s.count < SUP_MAX_RESTARTS && (s.pcs[t].Loaded? ==> s.pcs[t].val == s.count))
    && s.count <= SUP_MAX_RESTARTS
  }

  lemma CountStaysRight(s: State, step: Step, s': State)
    requires Leads(s, step, s') && CountRight(s) && (Commits(s, step) ==> InFlight(s) == {})
    ensures CountRight(s')
  {
    assert forall t :: t in InFlight(s') ==> t in InFlight(s) || (Commits(s, step) && t == step.t);
    if step.Continue? {
      assert step.t in InFlight(s);
    }
  }

  /** One handler at a time: the count is exact and no supervisor restarts more than five
  times. */
  lemma {:induction false} LimitHoldsOneAtATime(states: seq<State>, steps: seq<Step>, k: nat)
    requires IsRun(states, steps) && k <= |steps| && OneAtATime(states, steps)
    ensures CountRight(states[k]) && states[k].restarts <= SUP_MAX_RESTARTS
  {
    if k == 0 {
      assert InFlight(states[0]) == {};
    } else {
      LimitHoldsOneAtATime(states, steps, k - 1);
      assert Leads(states[k - 1], steps[k - 1], states[k]);
      CountStaysRight(states[k - 1], steps[k - 1], states[k]);
    }
  }

  // ----- runs that break the limit -----

  ghost predicate Reachable(s: State) {
    exists states: seq<State>, steps: seq<Step> :: IsRun(states, steps) && states[|steps|] == s
  }

  lemma OneMore(s: State, step: Step)
    requires Reachable(s) && Next(s, step).Some?
    ensures Reachable(Next(s, step).value)
  {
    hide Next, Init;
    var states: seq<State>, steps: seq<Step> :| IsRun(states, steps) && states[|steps|] == s;
    var s' := Next(s, step).value;
    var states', steps' := states + [s'], steps + [step];
    forall i | 0 <= i < |steps'| ensures Leads(states'[i], steps'[i], states'[i + 1]) {
      assert i < |steps| ==> Leads(states[i], steps[i], states[i + 1]);
    }
    assert IsRun(states', steps');
  }

  /** Threads `0` to `m - 1` stand at `pc`, the others at `rest`. */
  function Split(n: nat, m: nat, pc: Pc, rest: Pc): (r: map<Tid, Pc>) {
    map t: nat | 0 <= t < n && Within(0, t, n) :: if t < m then pc else rest
  }

  /** `n` idle threads; thread 0 alone restarts `k` times. */
  lemma {:induction false} RestartsAlone(n: nat, k: nat) returns (s: State)
    requires n >= 1 && k < SUP_MAX_RESTARTS
    ensures Reachable(s) && s == State(k, Split(n, n, Idle, Idle), k)
  {
    if k == 0 {
      s := State(0, Split(n, n, Idle, Idle), 0);
      assert IsRun([s], []);
    } else {
      s := RestartsAlone(n, k - 1);
      hide Reachable;
      OneMore(s, Handle(0, true));
      var s1 := s.(pcs := s.pcs[0 := Passed]);
      OneMore(s1, Continue(0));
      var s2 := s1.(pcs := s1.pcs[0 := Loaded(k - 1)]);
      OneMore(s2, Continue(0));
      var pcs := s2.pcs[0 := Idle];
      assert pcs == Split(n, n, Idle, Idle);
      s := State(k, pcs, k);
    }
  }

  lemma SplitMoves(n: nat, m: nat, pc: Pc, rest: Pc)
    requires m < n
    ensures m in Split(n, m, pc, rest) && Split(n, m, pc, rest)[m] == rest
    ensures Split(n, m, pc, rest)[m := pc] == Split(n, m + 1, pc, rest)
  {
  }

  /** All threads pass the test at count 4. */
  lemma {:induction false} AllPass(n: nat, m: nat)
    requires n >= 1 && m <= n
    ensures Reachable(State(4, Split(n, m, Passed, Idle), 4))
  {
    hide Reachable;
    if m == 0 {
      var s := RestartsAlone(n, 4);
      assert s.pcs == Split(n, 0, Passed, Idle);
    } else {
      AllPass(n, m - 1);
      SplitMoves(n, m - 1, Passed, Idle);
      OneMore(State(4, Split(n, m - 1, Passed, Idle), 4), Handle(m - 1, true));
    }
  }

  lemma {:induction false} AllLoad(n: nat, m: nat)
    requires n >= 1 && m <= n
    ensures Reachable(State(4, Split(n, m, Loaded(4), Passed), 4))
  {
    hide Reachable;
    if m == 0 {
      AllPass(n, n);
      assert Split(n, 0, Loaded(4), Passed) == Split(n, n, Passed, Idle);
    } else {
      AllLoad(n, m - 1);
      SplitMoves(n, m - 1, Loaded(4), Passed);
      OneMore(State(4, Split(n, m - 1, Loaded(4), Passed), 4), Continue(m - 1));
    }
  }

  lemma {:induction false} AllStore(n: nat, m: nat)
    requires n >= 1 && m <= n
    ensures Reachable(State(if m == 0 then 4 else 5, Split(n, m, Idle, Loaded(4)), 4 + m))
  {
    hide Reachable;
    if m == 0 {
      AllLoad(n, n);
      assert Split(n, 0, Idle, Loaded(4)) == Split(n, n, Loaded(4), Passed);
    } else {
      AllStore(n, m - 1);
      SplitMoves(n, m - 1, Idle, Loaded(4));
      OneMore(State(if m == 1 then 4 else 5, Split(n, m - 1, Idle, Loaded(4)), 4 + m - 1), Continue(m - 1));
    }
  }

  /** With `n` threads a supervisor can restart four times and then `n` times more, while its
  count ends at five. */
  lemma LimitBroken(n: nat)
    requires n >= 1
    ensures exists s :: Reachable(s) && InFlight(s) == {} && s.count == SUP_MAX_RESTARTS && s.restarts == 4 + n
  {
    AllStore(n, n);
    var s := State(5, Split(n, n, Idle, Loaded(4)), 4 + n);
    assert InFlight(s) == {};
  }
}
