/** The memory of a counted cell: strong and weak references end together
(bootstrap/cell.c:434-506, 874-887). */
module RcMemory {
  // The strong counters of `BiasedRc` run beside the weak count. A weak release that takes the
  // count to zero looks at the strong counters in two loads; the thread that frees the cell
  // loads the weak count, releases the children and then returns the memory if it read zero.

  import opened Options
  import opened BiasedRc

  /** Where the thread that decided to free the cell is. */
  datatype Freer = NotYet | Decided | Loaded(weak: nat) | Done(weak: nat)

  /** `checkers` weak releases have reached zero and not yet looked, `halfway` ones have read
  a zero `biased`.  `byWeak` counts the returns of the memory by weak releases.  The history:
  `early` releases had reached zero but not looked when both strong counters came to zero,
  and `weakThen` was the weak count; `orphaned` says that the last strong reference went
  inside the owner's window. */
  datatype Whole = Whole(
    strong: State, weak: nat, checkers: nat, halfway: nat, freer: Freer, byWeak: nat,
    early: nat, weakThen: nat, orphaned: bool)
  {
    function ByFreer(): (n: nat) { if freer.Done? && freer.weak == 0 then 1 else 0 }

    /** How often the memory has been returned. */
    function Returned(): (n: nat) { byWeak + ByFreer() }

    predicate Over() {
      && strong.Live() == 0 && strong.pc.Idle? && weak == 0 && checkers == halfway == 0
      && (freer.NotYet? || freer.Done?)
    }
  }

  /** Both strong counters are zero: what a weak release looks for. */
  predicate Gone(s: State) { s.biased == 0 && s.shared == 0 }

  const FRESH := Whole(START, 0, 0, 0, NotYet, 0, 0, 0, false)

  datatype Access =
    | Strong(c: Choice)
    | WeakRetain
    | WeakRelease
    | LoadBiased    // a weak release at zero looks at the strong counters
    | LoadShared
    | LoadWeak      // the freer
    | Finish

  function Next(x: Whole, a: Access): (r: Option<Whole>) {
    match a
    case Strong(c) =>
      if Step(x.strong, c).None? then None
      else
        var s' := Step(x.strong, c).value;
        var last := !Gone(x.strong) && Gone(s');
        Some(x.(strong := s',
                freer := if s'.frees > x.strong.frees then Decided else x.freer,
                early := if last then x.checkers + x.halfway else x.early,
                weakThen := if last then x.weak else x.weakThen,
                orphaned := x.orphaned || LastRefInWindow(x.strong, c)))
    case WeakRetain => if x.strong.Live() > 0 || x.weak > 0 then Some(x.(weak := x.weak + 1)) else None
    case WeakRelease =>
      if x.weak > 0 then
        Some(x.(weak := x.weak - 1, checkers := x.checkers + if x.weak == 1 then 1 else 0))
      else None
    case LoadBiased =>
      if x.checkers > 0 then
        Some(x.(checkers := x.checkers - 1, halfway := x.halfway + if x.strong.biased == 0 then 1 else 0))
      else None
    case LoadShared =>
      if x.halfway > 0 then
        Some(x.(halfway := x.halfway - 1, byWeak := x.byWeak + if x.strong.shared == 0 then 1 else 0))
      else None
    case LoadWeak => if x.freer.Decided? then Some(x.(freer := Loaded(x.weak))) else None
    case Finish => if x.freer.Loaded? then Some(x.(freer := Done(x.freer.weak))) else None
  }

  ghost predicate WholeInv(x: Whole) {
    && BiasedRc.Inv(x.strong) && Fate(x.strong, x.orphaned)
    && (x.freer.NotYet? <==> x.strong.frees == 0)
    && (x.halfway > 0 ==> x.strong.biased == 0)
    && (if !Gone(x.strong) then x.byWeak == 0
        else
          && x.byWeak + x.checkers + x.halfway == x.early + (if x.weakThen > 0 && x.weak == 0 then 1 else 0)
          && (x.weakThen == 0 ==> x.weak == 0))
    && ((x.freer.Loaded? || x.freer.Done?) && x.freer.weak == 0 ==> x.weak == 0)
    && ((x.freer.Loaded? || x.freer.Done?) && x.freer.weak > 0 ==> x.weakThen > 0)
  }

  /** Once at zero the owner's counter stays there, and so do both; only a gone cell is
  freed. */
  lemma GoneStaysGone(s: State, c: Choice)
    requires BiasedRc.Inv(s) && Step(s, c).Some?
    ensures var s' := Step(s, c).value;
            && (s.biased == 0 ==> s'.biased == 0)
            && (Gone(s) ==> s.Live() == 0 && Gone(s'))
            && s.frees <= s'.frees <= 1 && (s'.frees == 1 ==> Gone(s'))
            && (Gone(s) <==> s.biased == 0 && s.Live() == 0)
  {
    StepKeepsInv(s, c);
  }

  lemma NextKeepsInv(x: Whole, a: Access)
    requires WholeInv(x) && Next(x, a).Some?
    ensures WholeInv(Next(x, a).value)
  {
    if a.Strong? {
      GoneStaysGone(x.strong, a.c);
      StepKeepsInv(x.strong, a.c);
      FateStep(x.strong, a.c, x.orphaned);
      hide BiasedRc.Inv, Fate, Step, LastRefInWindow;
    }
  }

  /** Weak references come while the cell or a weak reference lives, and go one by one; a weak
  release at zero always gets to look, and the freer to finish. */
  lemma WeakMoves(x: Whole)
    ensures Next(x, WeakRetain).Some? <==> x.strong.ownerRefs + x.strong.sharedRefs > 0 || x.weak > 0
    ensures Next(x, WeakRetain).Some? ==> Next(x, WeakRetain).value.weak == x.weak + 1
    ensures Next(x, WeakRelease).Some? <==> x.weak > 0
    ensures Next(x, WeakRelease).Some? ==>
              var y := Next(x, WeakRelease).value;
              y.weak == x.weak - 1 && y.checkers == x.checkers + if y.weak == 0 then 1 else 0
    ensures x.checkers > 0 ==> Next(x, LoadBiased).Some?
    ensures x.halfway > 0 ==> Next(x, LoadShared).Some?
    ensures x.freer.Decided? ==> Next(x, LoadWeak).Some?
    ensures x.freer.Loaded? ==> Next(x, Finish).Some?
  {
  }

  ghost predicate IsWholeRun(states: seq<Whole>, steps: seq<Access>) {
    && |states| == |steps| + 1 && states[0] == FRESH
    && (forall i :: 0 <= i < |steps| ==> Goes(states[i], steps[i], states[i + 1]))
  }

  ghost predicate Goes(x: Whole, a: Access, x': Whole) {
    Next(x, a) == Some(x')
  }

  lemma FreshInv()
    ensures WholeInv(FRESH)
  {
  }

  lemma {:induction false} WholeRunKeepsInv(states: seq<Whole>, steps: seq<Access>, k: nat)
    requires IsWholeRun(states, steps) && k < |states|
    ensures WholeInv(states[k])
  {
    hide Next, WholeInv;
    if k == 0 {
      FreshInv();
    } else {
      WholeRunKeepsInv(states, steps, k - 1);
      assert Goes(states[k - 1], steps[k - 1], states[k]);
      NextKeepsInv(states[k - 1], steps[k - 1]);
    }
  }

  /** When everything is over the memory has been returned by every weak release that was
  about to look when the strong counters came to zero, by the one that took the weak count to
  zero after that, and by the freer if it read zero.  There is a freer exactly unless the
  last reference went inside the owner's window. */
  lemma ReturnsCounted(states: seq<Whole>, steps: seq<Access>, k: nat)
    requires IsWholeRun(states, steps) && k < |states| && states[k].Over()
    ensures var x := states[k];
            && x.Returned() == x.early + (if x.weakThen > 0 then 1 else 0) + x.ByFreer()
            && (x.freer.Done? <==> !x.orphaned)
            && (x.strong.frees == 1 <==> !x.orphaned)
  {
    WholeRunKeepsInv(states, steps, k);
  }

  /** A freed cell's memory is returned exactly once exactly if no weak release was about to
  look when the strong counters came to zero, and none reached zero between that and the
  freer's load.  An orphaned cell's children are never released; its memory is returned
  exactly once exactly if there was one weak release about to look or a weak reference left,
  and not both. */
  lemma ReturnedOnceExactly(states: seq<Whole>, steps: seq<Access>, k: nat)
    requires IsWholeRun(states, steps) && k < |states| && states[k].Over()
    ensures var x := states[k];
            x.Returned() == 1 <==>
              if x.orphaned then x.early + (if x.weakThen > 0 then 1 else 0) == 1
              else x.early == 0 && (x.weakThen > 0 ==> x.ByFreer() == 0)
  {
    ReturnsCounted(states, steps, k);
    WholeRunKeepsInv(states, steps, k);
  }

  // ----- runs -----

  ghost predicate Reachable(x: Whole) {
    exists states: seq<Whole>, steps: seq<Access> :: IsWholeRun(states, steps) && states[|steps|] == x
  }

  lemma OneMore(x: Whole, a: Access, x': Whole)
    requires Reachable(x) && Goes(x, a, x')
    ensures Reachable(x')
  {
    hide Goes;
    var states: seq<Whole>, steps: seq<Access> :| IsWholeRun(states, steps) && states[|steps|] == x;
    var states', steps' := states + [x'], steps + [a];
    forall i | 0 <= i < |steps'| ensures Goes(states'[i], steps'[i], states'[i + 1]) {
      assert i < |steps| ==> Goes(states[i], steps[i], states[i + 1]);
    }
    assert IsWholeRun(states', steps');
  }

  lemma FreshReachable()
    ensures Reachable(FRESH)
  {
    assert IsWholeRun([FRESH], []);
  }

  /** The cell after a run of its strong references, with one weak reference all along. */
  ghost function WithOneWeak(states: seq<State>, choices: seq<Choice>, k: nat): (x: Whole)
    requires IsRun(states, choices) && k < |states|
  {
    Whole(states[k], 1, 0, 0, if states[k].frees > 0 then Decided else NotYet, 0, 0,
          if Gone(states[k]) then 1 else 0, Orphaned(states, choices, k))
  }

  lemma LiftedStep(states: seq<State>, choices: seq<Choice>, k: nat)
    requires IsRun(states, choices) && k < |choices| && BiasedRc.Inv(states[k])
    ensures Goes(WithOneWeak(states, choices, k), Strong(choices[k]), WithOneWeak(states, choices, k + 1))
  {
    assert Leads(states[k], choices[k], states[k + 1]);
    GoneStaysGone(states[k], choices[k]);
    assert Orphaned(states, choices, k + 1) <==>
             Orphaned(states, choices, k) || LastRefInWindow(states[k], choices[k]);
    hide BiasedRc.Inv, Step, LastRefInWindow, Orphaned, Gone;
  }

  /** Every run of the strong references is part of a run of the whole cell. */
  lemma {:induction false} Lifted(states: seq<State>, choices: seq<Choice>, k: nat)
    requires IsRun(states, choices) && k < |states|
    ensures Reachable(WithOneWeak(states, choices, k))
  {
    hide Reachable;
    if k == 0 {
      FreshReachable();
      OneMore(FRESH, WeakRetain, FRESH.(weak := 1));
    } else {
      hide Goes, WithOneWeak;
      Lifted(states, choices, k - 1);
      RunKeepsInv(states, choices, k - 1);
      LiftedStep(states, choices, k - 1);
      OneMore(WithOneWeak(states, choices, k - 1), Strong(choices[k - 1]), WithOneWeak(states, choices, k));
    }
  }

  /** A weak release that looks at once. */
  lemma ReleasesWeak(x: Whole)
    requires Reachable(x) && x.weak == 1 && x.checkers == x.halfway == 0 && Gone(x.strong)
    ensures Reachable(x.(weak := 0, byWeak := x.byWeak + 1))
  {
    hide Reachable, Step;
    var x1 := x.(weak := 0, checkers := 1);
    OneMore(x, WeakRelease, x1);
    var x2 := x1.(checkers := 0, halfway := 1);
    OneMore(x1, LoadBiased, x2);
    OneMore(x2, LoadShared, x2.(halfway := 0, byWeak := x.byWeak + 1));
  }

  lemma OwnerFrees() returns (states: seq<State>, choices: seq<Choice>)
    ensures IsRun(states, choices) && |choices| == 2
    ensures var s := states[2]; s.Live() == 0 && s.pc.Idle? && Gone(s) && s.frees == 1
  {
    choices := [OwnerRelease, OwnerContinue];
    var s1 := START.(biased := 0, ownerRefs := 0, pc := Released);
    var s2 := s1.(pc := Idle, frees := 1);
    states := [START, s1, s2];
    OwnerReleases(s1, s2);
  }

  lemma OwnerReleases(s1: State, s2: State)
    requires s1 == START.(biased := 0, ownerRefs := 0, pc := Released) && s2 == s1.(pc := Idle, frees := 1)
    ensures Leads(START, OwnerRelease, s1) && Leads(s1, OwnerContinue, s2)
  {
  }

  lemma FreedWithWeak() returns (x: Whole)
    ensures Reachable(x) && x.strong.Live() == 0 && x.strong.pc.Idle? && Gone(x.strong)
    ensures x.weak == 1 && x.checkers == x.halfway == x.byWeak == 0 && x.freer == Decided
  {
    var strong, choices := OwnerFrees();
    Lifted(strong, choices, 2);
    x := WithOneWeak(strong, choices, 2);
  }

  /** The memory can be returned twice: a weak release reaches zero after the last strong
  reference has gone and looks before the freer has loaded the weak count. */
  lemma ReturnedTwice() returns (x: Whole)
    ensures Reachable(x) && x.Over() && x.Returned() == 2
  {
    hide Reachable, Step;
    x := FreedWithWeak();
    ReleasesWeak(x);
    FreerFinishes(x.(weak := 0, byWeak := 1));
    x := x.(weak := 0, byWeak := 1, freer := Done(0));
  }

  lemma FreerFinishes(x: Whole)
    requires Reachable(x) && x.freer == Decided
    ensures Reachable(x.(freer := Done(x.weak)))
  {
    hide Reachable, Step;
    OneMore(x, LoadWeak, x.(freer := Loaded(x.weak)));
    OneMore(x.(freer := Loaded(x.weak)), Finish, x.(freer := Done(x.weak)));
  }

  lemma LeakedWithWeak() returns (x: Whole)
    ensures Reachable(x) && x.strong.Live() == 0 && x.strong.pc.Idle? && Gone(x.strong) && x.strong.frees == 0
    ensures x.weak == 1 && x.checkers == x.halfway == x.byWeak == 0 && x.freer == NotYet
  {
    var strong, choices := LeakRun();
    RunKeepsInv(strong, choices, |choices|);
    Lifted(strong, choices, |choices|);
    x := WithOneWeak(strong, choices, |choices|);
  }

  /** An orphaned cell's last weak release can return its memory although nobody has released
  the children. */
  lemma ReturnedUnfreed() returns (x: Whole)
    ensures Reachable(x) && x.Over() && x.Returned() == 1 && x.strong.frees == 0
  {
    hide Reachable, Step;
    x := LeakedWithWeak();
    ReleasesWeak(x);
    x := x.(weak := 0, byWeak := 1);
  }
}
