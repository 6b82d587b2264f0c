/** The eventcount: epoch and waiter count packed in one 64-bit word, and two-phase parking
(bootstrap/eventcount.h:46-107, bootstrap/park.c:75-122).

Each atomic update, load, sleep and wake is one step; any number of waiters and notifiers
interleave. */
module EventCount {
  import opened Options

  const HALF: nat := 0x1_0000_0000
  const WORD: nat := 0x1_0000_0000_0000_0000

  function Epoch(word: nat): (e: nat) { word / HALF }

  function Waiters(word: nat): (n: nat) { word % HALF }

  function Packed(epoch: nat, waiters: nat): (word: nat) { epoch * HALF + waiters }

  function AddWaiter(word: nat): (r: nat) { (word + 1) % WORD }

  function SubWaiter(word: nat): (r: nat) { (word + WORD - 1) % WORD }

  function BumpEpoch(word: nat): (r: nat) { (word + HALF) % WORD }

  /** The 64-bit additions move one half and leave the other alone while neither half is
  at its limit. */
  lemma HalvesMoveApart(epoch: nat, waiters: nat)
    requires epoch < HALF && waiters < HALF
    ensures var word := Packed(epoch, waiters);
            && Epoch(word) == epoch && Waiters(word) == waiters
            && (waiters + 1 < HALF ==> AddWaiter(word) == Packed(epoch, waiters + 1))
            && (waiters > 0 ==> SubWaiter(word) == Packed(epoch, waiters - 1))
            && (epoch + 1 < HALF ==> BumpEpoch(word) == Packed(epoch + 1, waiters))
  {
  }

  // ----- the word itself -----

  /** What `ec_notify_one` and `ec_notify_all` do after the epoch bump. */
  datatype Wakeup = NoWake | WakeOne | WakeAll

  class PackedWord {
    var state: nat

    ghost predicate Holds(epoch: nat, waiters: nat)
      reads this
    {
      epoch < HALF && waiters < HALF && state == Packed(epoch, waiters)
    }

    /** `ec_init`. */
    constructor ()
      ensures Holds(0, 0)
    {
      state := 0;
    }

    /** `ec_prepare_wait`: registers and returns the epoch seen. */
    method PrepareWait(ghost epoch: nat, ghost waiters: nat) returns (seen: nat)
      requires Holds(epoch, waiters) && waiters + 1 < HALF
      modifies this
      ensures Holds(epoch, waiters + 1) && seen == epoch
    {
      HalvesMoveApart(epoch, waiters);
      seen := Epoch(state);
      state := AddWaiter(state);
    }

    /** `ec_cancel_wait`, and the unregistering at the end of `ec_commit_wait`. */
    method CancelWait(ghost epoch: nat, ghost waiters: nat)
      requires Holds(epoch, waiters) && waiters > 0
      modifies this
      ensures Holds(epoch, waiters - 1)
    {
      HalvesMoveApart(epoch, waiters);
      state := SubWaiter(state);
    }

    /** `ec_notify_one` and `ec_notify_all`: bumps the epoch and says whom to wake. */
    method Notify(all: bool, ghost epoch: nat, ghost waiters: nat) returns (wake: Wakeup)
      requires Holds(epoch, waiters) && epoch + 1 < HALF
      modifies this
      ensures Holds(epoch + 1, waiters)
      ensures wake == if waiters == 0 then NoWake else if all then WakeAll else WakeOne
    {
      HalvesMoveApart(epoch, waiters);
      var prev := state;
      state := BumpEpoch(state);
      wake := if Waiters(prev) == 0 then NoWake else if all then WakeAll else WakeOne;
    }
  }

  // ----- waiters and notifiers -----

  /** How the last stage of parking decides to sleep: on the epoch, as the protocol asks, or
  like the Linux futex call on the low half of the word, the waiter count. */
  datatype Parking = OnEpoch | OnWaiters

  /** A registered waiter.  `epoch` is its snapshot; `seen` is how much work had been
  published when it found none to do. */
  datatype Waiter =
    | Prepared(epoch: nat)
    | Checked(epoch: nat, seen: nat)
    | Parked(epoch: nat, seen: nat)             // past the load in ec_commit_wait
    | Loaded(epoch: nat, seen: nat, val: nat)   // past the last re-check before the system call
    | Asleep(epoch: nat, seen: nat)
    | Awake(epoch: nat, seen: nat)              // only the unregistering left

  /** A notifier: has published work number `work`; has bumped the epoch from `prior`. */
  datatype Notifier = Published(work: nat) | Waking(work: nat, prior: nat, all: bool)

  /** A finished notify that has left nobody to wake: a notify-all, or a notify-one that
  found no sleeper. */
  datatype Notice = Notice(work: nat, prior: nat)

  datatype State = State(
    word: nat, published: nat, waiters: map<int, Waiter>, notifiers: map<int, Notifier>, done: set<Notice>)

  const START := State(0, 0, map[], map[], {})

  datatype Step =
    | Prepare(w: int)
    | FoundWork(w: int)   // ec_cancel_wait
    | FoundNone(w: int)
    | Commit(w: int)
    | Load(w: int)
    | Sleep(w: int)
    | Wake(w: int)        // a timeout or spurious wakeup
    | Leave(w: int)
    | Publish(p: int)
    | Bump(p: int, all: bool)
    | WakeEveryone(p: int)
    | WakeSomeone(p: int, w: int)

  /** The sleepers that a broadcast reaches. */
  function Roused(ws: map<int, Waiter>): (r: map<int, Waiter>)
    ensures r.Keys == ws.Keys
    ensures forall w :: w in ws ==> r[w] == if ws[w].Asleep? then Awake(ws[w].epoch, ws[w].seen) else ws[w]
  {
    map w | w in ws :: if ws[w].Asleep? then Awake(ws[w].epoch, ws[w].seen) else ws[w]
  }

  predicate Sleeping(s: State, w: int) {
    w in s.waiters && s.waiters[w].Asleep?
  }

  predicate Sleeps(parking: Parking, s: State, x: Waiter)
    requires x.Loaded?
  {
    match parking
    case OnEpoch => Epoch(s.word) == x.epoch
    case OnWaiters => Waiters(s.word) == x.val
  }

  function NextWaiter(parking: Parking, s: State, step: Step): (r: Option<State>) {
    match step
    case Prepare(w) =>
      if w in s.waiters || |s.waiters| + 1 >= HALF then None
      else Some(s.(word := AddWaiter(s.word), waiters := s.waiters[w := Prepared(Epoch(s.word))]))
    case FoundWork(w) =>
      if w in s.waiters && s.waiters[w].Prepared? then
        Some(s.(word := SubWaiter(s.word), waiters := s.waiters - {w}))
      else None
    case FoundNone(w) =>
      if w in s.waiters && s.waiters[w].Prepared? then
        Some(s.(waiters := s.waiters[w := Checked(s.waiters[w].epoch, s.published)]))
      else None
    case Commit(w) =>
      if w in s.waiters && s.waiters[w].Checked? then
        var x := s.waiters[w];
        Some(s.(waiters := s.waiters[w :=
          if Epoch(s.word) == x.epoch then Parked(x.epoch, x.seen) else Awake(x.epoch, x.seen)]))
      else None
    case Load(w) =>
      if w in s.waiters && s.waiters[w].Parked? then
        var x := s.waiters[w];
        Some(s.(waiters := s.waiters[w :=
          if Epoch(s.word) == x.epoch then Loaded(x.epoch, x.seen, Waiters(s.word)) else Awake(x.epoch, x.seen)]))
      else None
    case Sleep(w) =>
      if w in s.waiters && s.waiters[w].Loaded? then
        var x := s.waiters[w];
        Some(s.(waiters := s.waiters[w :=
          if Sleeps(parking, s, x) then Asleep(x.epoch, x.seen) else Awake(x.epoch, x.seen)]))
      else None
    case Wake(w) =>
      if Sleeping(s, w) then
        Some(s.(waiters := s.waiters[w := Awake(s.waiters[w].epoch, s.waiters[w].seen)]))
      else None
    case Leave(w) =>
      if w in s.waiters && s.waiters[w].Awake? then
        Some(s.(word := SubWaiter(s.word), waiters := s.waiters - {w}))
      else None
    case _ => None
  }

  function NextNotifier(s: State, step: Step): (r: Option<State>) {
    match step
    case Publish(p) =>
      if p in s.notifiers then None
      else Some(s.(published := s.published + 1, notifiers := s.notifiers[p := Published(s.published + 1)]))
    case Bump(p, all) =>
      if p in s.notifiers && s.notifiers[p].Published? && Epoch(s.word) + 1 < HALF then
        var n := s.notifiers[p].work;
        var t := s.(word := BumpEpoch(s.word));
        if Waiters(s.word) > 0 then
          Some(t.(notifiers := s.notifiers[p := Waking(n, Epoch(s.word), all)]))
        else
          Some(t.(notifiers := s.notifiers - {p}, done := s.done + {Notice(n, Epoch(s.word))}))
      else None
    case WakeEveryone(p) =>
      if p in s.notifiers && s.notifiers[p].Waking? && s.notifiers[p].all then
        Some(s.(waiters := Roused(s.waiters), notifiers := s.notifiers - {p},
                done := s.done + {Notice(s.notifiers[p].work, s.notifiers[p].prior)}))
      else None
    case WakeSomeone(p, w) =>
      if p in s.notifiers && s.notifiers[p].Waking? && !s.notifiers[p].all then
        if Sleeping(s, w) then
          Some(s.(waiters := s.waiters[w := Awake(s.waiters[w].epoch, s.waiters[w].seen)],
                  notifiers := s.notifiers - {p}))
        else if forall v :: v in s.waiters ==> !s.waiters[v].Asleep? then
          Some(s.(notifiers := s.notifiers - {p},
                  done := s.done + {Notice(s.notifiers[p].work, s.notifiers[p].prior)}))
        else None
      else None
    case _ => None
  }

  function Next(parking: Parking, s: State, step: Step): (r: Option<State>) {
    if NextWaiter(parking, s, step).Some? then NextWaiter(parking, s, step) else NextNotifier(s, step)
  }

  // ----- the invariant -----

  /** The low half counts the registered waiters; neither half has overflowed. */
  ghost predicate WordOk(s: State) {
    |s.waiters| < HALF && Epoch(s.word) < HALF && s.word == Packed(Epoch(s.word), |s.waiters|)
  }

  /** Snapshots lie in the past. */
  ghost predicate WaitersOk(s: State) {
    forall w :: w in s.waiters ==>
      s.waiters[w].epoch <= Epoch(s.word) && (!s.waiters[w].Prepared? ==> s.waiters[w].seen <= s.published)
  }

  /** A waiter that found nothing before work `n` appeared took its snapshot no later than
  the epoch `prior`. */
  ghost predicate Covers(s: State, n: nat, prior: nat) {
    n <= s.published && prior < Epoch(s.word) &&
    forall w :: w in s.waiters && !s.waiters[w].Prepared? && s.waiters[w].seen < n ==> s.waiters[w].epoch <= prior
  }

  ghost predicate NotifiersOk(s: State) {
    && (forall p :: p in s.notifiers ==>
          && s.notifiers[p].work <= s.published
          && (s.notifiers[p].Waking? ==> Covers(s, s.notifiers[p].work, s.notifiers[p].prior)))
    && (forall d :: d in s.done ==> Covers(s, d.work, d.prior))
  }

  ghost predicate Inv(s: State) {
    WordOk(s) && WaitersOk(s) && NotifiersOk(s)
  }

  /** No sleeper's snapshot is as old as a finished notify. */
  ghost predicate NoStaleSleeper(s: State) {
    forall w, d :: Sleeping(s, w) && d in s.done ==> s.waiters[w].epoch > d.prior
  }

  lemma MapSizes(m: map<int, Waiter>, w: int, x: Waiter)
    ensures |m[w := x]| == |m| + if w in m then 0 else 1
    ensures w in m ==> |m - {w}| == |m| - 1
    ensures |Roused(m)| == |m|
  {
    if w in m {
      assert m == (m - {w})[w := m[w]];
      assert m[w := x] == (m - {w})[w := x];
    }
    assert |Roused(m).Keys| == |m.Keys|;
  }

  /** What a step adds to the word and to the number of registered waiters. */
  ghost predicate CountMoves(s: State, step: Step, s': State) {
    if step.Prepare? then
      s'.word == AddWaiter(s.word) && |s'.waiters| == |s.waiters| + 1 < HALF
    else if step.FoundWork? || step.Leave? then
      s'.word == SubWaiter(s.word) && |s'.waiters| == |s.waiters| - 1
    else if step.Bump? then
      s'.word == BumpEpoch(s.word) && s'.waiters == s.waiters && Epoch(s.word) + 1 < HALF
    else s'.word == s.word && |s'.waiters| == |s.waiters|
  }

  lemma WaiterStepMoves(parking: Parking, s: State, step: Step)
    requires NextWaiter(parking, s, step).Some?
    ensures CountMoves(s, step, NextWaiter(parking, s, step).value)
  {
    hide Epoch, Waiters, AddWaiter, SubWaiter, BumpEpoch, Roused, Sleeps;
    var s' := NextWaiter(parking, s, step).value;
    MapSizes(s.waiters, step.w, if step.w in s'.waiters then s'.waiters[step.w] else s.waiters[step.w]);
  }

  lemma NotifierStepMoves(s: State, step: Step)
    requires NextNotifier(s, step).Some?
    ensures CountMoves(s, step, NextNotifier(s, step).value)
  {
    hide Epoch, Waiters, AddWaiter, SubWaiter, BumpEpoch, Roused;
    match step
    case WakeEveryone(p) => MapSizes(s.waiters, p, Prepared(0));
    case WakeSomeone(p, w) =>
      if Sleeping(s, w) {
        MapSizes(s.waiters, w, Awake(s.waiters[w].epoch, s.waiters[w].seen));
      }
    case _ =>
  }

  lemma WordKept(parking: Parking, s: State, step: Step)
    requires WordOk(s) && Next(parking, s, step).Some?
    ensures var s' := Next(parking, s, step).value;
            && WordOk(s')
            && Epoch(s'.word) == Epoch(s.word) + if step.Bump? then 1 else 0
  {
    if NextWaiter(parking, s, step).Some? {
      WaiterStepMoves(parking, s, step);
    } else {
      NotifierStepMoves(s, step);
    }
    var e, n, m := Epoch(s.word), |s.waiters|, |Next(parking, s, step).value.waiters|;
    hide Next, NextWaiter, NextNotifier, Epoch, Waiters, AddWaiter, SubWaiter, BumpEpoch, Packed;
    HalvesMoveApart(e, n);
    HalvesMoveApart(if step.Bump? then e + 1 else e, m);
  }

  lemma WaitersKept(parking: Parking, s: State, step: Step)
    requires Inv(s) && Next(parking, s, step).Some?
    ensures WaitersOk(Next(parking, s, step).value)
  {
    hide Epoch, Waiters, AddWaiter, SubWaiter, BumpEpoch, Packed, NotifiersOk;
    WordKept(parking, s, step);
    hide WordOk;
  }

  /** What one step can do to a waiter: it may be new, with the current epoch; may find
  nothing, with all published work seen; or keeps its snapshot. */
  lemma WaiterMoves(parking: Parking, s: State, step: Step, w: int)
    requires Inv(s) && Next(parking, s, step).Some? && w in Next(parking, s, step).value.waiters
    ensures var x' := Next(parking, s, step).value.waiters[w];
            if w in s.waiters then
              var x := s.waiters[w];
              && x'.epoch == x.epoch
              && (!x'.Prepared? ==> if x.Prepared? then x'.seen == s.published else x'.seen == x.seen)
              && (x.Prepared? ==> x'.Prepared? || x'.Checked?)
              && (x'.Prepared? ==> x.Prepared?)
            else x' == Prepared(Epoch(s.word))
  {
    hide Epoch, Waiters, AddWaiter, SubWaiter, BumpEpoch, Packed, Inv;
  }

  lemma CoversKept(parking: Parking, s: State, step: Step, n: nat, prior: nat)
    requires Inv(s) && Covers(s, n, prior) && Next(parking, s, step).Some?
    ensures Covers(Next(parking, s, step).value, n, prior)
  {
    hide Next, Inv, Epoch;
    var s' := Next(parking, s, step).value;
    PublishedGrows(parking, s, step);
    forall w | w in s'.waiters && !s'.waiters[w].Prepared? && s'.waiters[w].seen < n
      ensures s'.waiters[w].epoch <= prior
    {
      WaiterMoves(parking, s, step, w);
    }
  }

  lemma PublishedGrows(parking: Parking, s: State, step: Step)
    requires Inv(s) && Next(parking, s, step).Some?
    ensures var s' := Next(parking, s, step).value; s.published <= s'.published && Epoch(s.word) <= Epoch(s'.word)
  {
    WordKept(parking, s, step);
    hide Epoch, Waiters, AddWaiter, SubWaiter, BumpEpoch, Packed, Inv;
  }

  /** The bump covers its own publish: whoever had found nothing before it registered in
  the epoch that the bump ends. */
  lemma BumpCovers(parking: Parking, s: State, p: int, all: bool)
    requires Inv(s) && Next(parking, s, Bump(p, all)).Some?
    ensures Covers(Next(parking, s, Bump(p, all)).value, s.notifiers[p].work, Epoch(s.word))
  {
    WordKept(parking, s, Bump(p, all));
    hide Epoch, Waiters, AddWaiter, SubWaiter, BumpEpoch, Packed, WordOk;
  }

  /** What one step can do to the notifiers and the notices. */
  lemma NotifierMoves(parking: Parking, s: State, step: Step)
    requires Next(parking, s, step).Some?
    ensures var s' := Next(parking, s, step).value;
            && (forall p :: p in s'.notifiers ==>
                  || (p in s.notifiers && s'.notifiers[p] == s.notifiers[p])
                  || s'.notifiers[p] == Published(s'.published)
                  || (step.Bump? && p == step.p && p in s.notifiers
                      && s'.notifiers[p] == Waking(s.notifiers[p].work, Epoch(s.word), step.all)))
            && (forall d :: d in s'.done ==>
                  || d in s.done
                  || ((step.WakeEveryone? || step.WakeSomeone?) && step.p in s.notifiers && s.notifiers[step.p].Waking?
                      && d == Notice(s.notifiers[step.p].work, s.notifiers[step.p].prior))
                  || (step.Bump? && step.p in s.notifiers && d == Notice(s.notifiers[step.p].work, Epoch(s.word))))
            && s.published <= s'.published
  {
    hide Epoch, Waiters, AddWaiter, SubWaiter, BumpEpoch, Packed;
  }

  lemma NotifiersKept(parking: Parking, s: State, step: Step)
    requires Inv(s) && Next(parking, s, step).Some?
    ensures NotifiersOk(Next(parking, s, step).value)
  {
    hide Next, Epoch, WordOk, WaitersOk, Covers;
    var s' := Next(parking, s, step).value;
    forall n: nat, prior: nat | Covers(s, n, prior) ensures Covers(s', n, prior) {
      CoversKept(parking, s, step, n, prior);
    }
    NotifierMoves(parking, s, step);
    if step.Bump? {
      BumpCovers(parking, s, step.p, step.all);
    }
  }

  lemma NextKeepsInv(parking: Parking, s: State, step: Step)
    requires Inv(s) && Next(parking, s, step).Some?
    ensures Inv(Next(parking, s, step).value)
  {
    WordKept(parking, s, step);
    WaitersKept(parking, s, step);
    NotifiersKept(parking, s, step);
  }

  /** A waiter falls asleep only in a `Sleep` step. */
  lemma FallsAsleep(parking: Parking, s: State, step: Step, w: int)
    requires Next(parking, s, step).Some? && Sleeping(Next(parking, s, step).value, w)
    ensures Sleeping(s, w)
            || (step == Sleep(w) && w in s.waiters && s.waiters[w].Loaded? && Sleeps(parking, s, s.waiters[w]))
    ensures w in s.waiters && Next(parking, s, step).value.waiters[w].epoch == s.waiters[w].epoch
    ensures Next(parking, s, step).value.waiters[w].seen == s.waiters[w].seen
    ensures !step.WakeEveryone?
  {
    hide Epoch, Waiters, AddWaiter, SubWaiter, BumpEpoch, Packed;
  }

  /** A finished notify was finished before or finishes with this step, when nobody is
  asleep. */
  lemma Finishes(parking: Parking, s: State, step: Step, d: Notice)
    requires Inv(s) && Next(parking, s, step).Some? && d in Next(parking, s, step).value.done
    ensures d in s.done || step.WakeEveryone? || (step.Bump? && |s.waiters| == 0)
            || (step.WakeSomeone? && forall w :: !Sleeping(s, w))
  {
    hide AddWaiter, SubWaiter, BumpEpoch;
    HalvesMoveApart(Epoch(s.word), |s.waiters|);
  }

  lemma StaleSleeperStep(s: State, step: Step, w: int, d: Notice)
    requires Inv(s) && NoStaleSleeper(s) && Next(OnEpoch, s, step).Some?
    requires Sleeping(Next(OnEpoch, s, step).value, w) && d in Next(OnEpoch, s, step).value.done
    ensures Next(OnEpoch, s, step).value.waiters[w].epoch > d.prior
  {
    hide Next, Epoch, Waiters, Inv;
    FallsAsleep(OnEpoch, s, step, w);
    Finishes(OnEpoch, s, step, d);
    DoneIsPast(s);
  }

  lemma DoneIsPast(s: State)
    requires Inv(s)
    ensures forall d :: d in s.done ==> d.prior < Epoch(s.word)
    ensures |s.waiters| == 0 ==> forall w :: w !in s.waiters
  {
    forall d | d in s.done ensures d.prior < Epoch(s.word) {
      assert Covers(s, d.work, d.prior);
    }
  }

  // ----- a waiter and a notifier whom nobody disturbs -----

  /** The state after the steps, one after the other. */
  function After(parking: Parking, s: State, steps: seq<Step>): (r: Option<State>)
    decreases |steps|
  {
    if steps == [] then Some(s)
    else
      match Next(parking, s, steps[0])
      case None => None
      case Some(t) => After(parking, t, steps[1..])
  }

  lemma AfterOne(parking: Parking, s: State, steps: seq<Step>, t: State)
    requires steps != [] && Next(parking, s, steps[0]) == Some(t)
    ensures After(parking, s, steps) == After(parking, t, steps[1..])
  {
  }

  lemma AddThenSub(s: State)
    requires Inv(s) && |s.waiters| + 1 < HALF
    ensures SubWaiter(AddWaiter(s.word)) == s.word
  {
    var e, n := Epoch(s.word), |s.waiters|;
    hide WaitersOk, NotifiersOk, Epoch, Waiters, AddWaiter, SubWaiter, Packed;
    HalvesMoveApart(e, n);
    HalvesMoveApart(e, n + 1);
  }

  /** A thread that finds work is gone again, as if it had never come. */
  lemma CancelAlone(parking: Parking, s: State, w: int)
    requires Inv(s) && w !in s.waiters && |s.waiters| + 1 < HALF
    ensures After(parking, s, [Prepare(w), FoundWork(w)]) == Some(s)
  {
    hide Inv, WordOk, Epoch, Waiters, AddWaiter, SubWaiter;
    AddThenSub(s);
    var s1 := s.(word := AddWaiter(s.word), waiters := s.waiters[w := Prepared(Epoch(s.word))]);
    assert s1.waiters - {w} == s.waiters;
    AfterOne(parking, s, [Prepare(w), FoundWork(w)], s1);
    AfterOne(parking, s1, [FoundWork(w)], s);
  }

  /** A thread that registers, finds nothing and is not disturbed falls asleep. */
  lemma WaitAlone(parking: Parking, s: State, w: int)
    requires Inv(s) && w !in s.waiters && |s.waiters| + 1 < HALF
    ensures var r := After(parking, s, [Prepare(w), FoundNone(w), Commit(w), Load(w), Sleep(w)]);
            && r.Some? && Sleeping(r.value, w) && r.value.waiters[w].epoch == Epoch(s.word)
            && r.value.waiters[w].seen == s.published && Waiters(r.value.word) == Waiters(s.word) + 1
  {
    HalvesMoveApart(Epoch(s.word), |s.waiters|);
    HalvesMoveApart(Epoch(s.word), |s.waiters| + 1);
    hide Inv, Epoch, Waiters, AddWaiter, SubWaiter;
    var e, word := Epoch(s.word), AddWaiter(s.word);
    var s1 := s.(word := word, waiters := s.waiters[w := Prepared(e)]);
    var s2 := s1.(waiters := s.waiters[w := Checked(e, s.published)]);
    var s3 := s2.(waiters := s.waiters[w := Parked(e, s.published)]);
    var s4 := s3.(waiters := s.waiters[w := Loaded(e, s.published, Waiters(word))]);
    var s5 := s4.(waiters := s.waiters[w := Asleep(e, s.published)]);
    assert s1.waiters[w := s2.waiters[w]] == s2.waiters && s2.waiters[w := s3.waiters[w]] == s3.waiters;
    assert s3.waiters[w := s4.waiters[w]] == s4.waiters && s4.waiters[w := s5.waiters[w]] == s5.waiters;
    var steps := [Prepare(w), FoundNone(w), Commit(w), Load(w), Sleep(w)];
    AfterOne(parking, s, steps, s1);
    AfterOne(parking, s1, steps[1..], s2);
    AfterOne(parking, s2, steps[2..], s3);
    AfterOne(parking, s3, steps[3..], s4);
    AfterOne(parking, s4, steps[4..], s5);
  }

  /** A thread that looks at the word after a bump does not go to sleep, and leaves the word
  without its registration. */
  lemma BumpIsNoticed(parking: Parking, s: State, w: int)
    requires Inv(s) && w in s.waiters && Epoch(s.word) != s.waiters[w].epoch
    requires s.waiters[w].Checked? || s.waiters[w].Parked?
    ensures var r := After(parking, s, [if s.waiters[w].Checked? then Commit(w) else Load(w), Leave(w)]);
            r.Some? && r.value.waiters == s.waiters - {w} && Waiters(r.value.word) == Waiters(s.word) - 1
  {
    HalvesMoveApart(Epoch(s.word), |s.waiters|);
    MapSizes(s.waiters, w, s.waiters[w]);
    HalvesMoveApart(Epoch(s.word), |s.waiters| - 1);
    hide Inv, Epoch, Waiters, SubWaiter;
    var x := s.waiters[w];
    var s1 := s.(waiters := s.waiters[w := Awake(x.epoch, x.seen)]);
    var step := if x.Checked? then Commit(w) else Load(w);
    assert s1.waiters - {w} == s.waiters - {w};
    AfterOne(parking, s, [step, Leave(w)], s1);
    AfterOne(parking, s1, [Leave(w)], s1.(word := SubWaiter(s.word), waiters := s.waiters - {w}));
  }

  /** A notify-all that nobody disturbs leaves nobody asleep. */
  lemma NotifyAlone(parking: Parking, s: State, p: int)
    requires Inv(s) && p !in s.notifiers && Epoch(s.word) + 1 < HALF && |s.waiters| > 0
    ensures var r := After(parking, s, [Publish(p), Bump(p, true), WakeEveryone(p)]);
            && r.Some? && r.value.published == s.published + 1 && Epoch(r.value.word) == Epoch(s.word) + 1
            && r.value.waiters.Keys == s.waiters.Keys && r.value.notifiers == s.notifiers
            && forall w :: w in s.waiters ==>
                 if s.waiters[w].Asleep? then r.value.waiters[w].Awake? else r.value.waiters[w] == s.waiters[w]
  {
    HalvesMoveApart(Epoch(s.word), |s.waiters|);
    HalvesMoveApart(Epoch(s.word) + 1, |s.waiters|);
    assert BumpEpoch(s.word) == Packed(Epoch(s.word) + 1, |s.waiters|);
    hide Inv, Epoch, Waiters, BumpEpoch;
    var n := s.published + 1;
    var s1 := s.(published := n, notifiers := s.notifiers[p := Published(n)]);
    var s2 := s1.(word := BumpEpoch(s.word), notifiers := s.notifiers[p := Waking(n, Epoch(s.word), true)]);
    var s3 := s2.(waiters := Roused(s.waiters), notifiers := s.notifiers, done := s.done + {Notice(n, Epoch(s.word))});
    assert s1.notifiers[p := s2.notifiers[p]] == s2.notifiers && s2.notifiers - {p} == s.notifiers;
    AfterOne(parking, s, [Publish(p), Bump(p, true), WakeEveryone(p)], s1);
    AfterOne(parking, s1, [Bump(p, true), WakeEveryone(p)], s2);
    AfterOne(parking, s2, [WakeEveryone(p)], s3);
  }

  // ----- runs -----

  ghost predicate Leads(parking: Parking, s: State, step: Step, s': State) {
    Next(parking, s, step) == Some(s')
  }

  ghost predicate IsRun(parking: Parking, states: seq<State>, steps: seq<Step>) {
    && |states| == |steps| + 1 && states[0] == START
    && (forall i :: 0 <= i < |steps| ==> Leads(parking, states[i], steps[i], states[i + 1]))
  }

  lemma {:induction false} RunKeepsInv(parking: Parking, states: seq<State>, steps: seq<Step>, k: nat)
    requires IsRun(parking, states, steps) && k < |states|
    ensures Inv(states[k])
  {
    if k > 0 {
      hide Next, Inv;
      RunKeepsInv(parking, states, steps, k - 1);
      assert Leads(parking, states[k - 1], steps[k - 1], states[k]);
      NextKeepsInv(parking, states[k - 1], steps[k - 1]);
    }
  }

  /** In every reachable state the low half of the word is the number of registered waiters
  and the high half the epoch: no carry or borrow ever crosses. */
  lemma LowHalfCountsWaiters(parking: Parking, states: seq<State>, steps: seq<Step>, k: nat)
    requires IsRun(parking, states, steps) && k < |states|
    ensures Waiters(states[k].word) == |states[k].waiters|
  {
    RunKeepsInv(parking, states, steps, k);
    HalvesMoveApart(Epoch(states[k].word), |states[k].waiters|);
  }

  /** Work was published, its notify-all is complete, and a thread that had looked for work
  before the publish is still blocked. */
  ghost predicate LostWakeup(s: State) {
    exists w, d :: Sleeping(s, w) && d in s.done && s.waiters[w].seen < d.work
  }

  lemma NoStaleNoLost(s: State)
    requires Inv(s) && NoStaleSleeper(s)
    ensures !LostWakeup(s)
  {
    forall w, d | Sleeping(s, w) && d in s.done ensures s.waiters[w].seen >= d.work {
      assert Covers(s, d.work, d.prior);
    }
  }

  lemma {:induction false} NoStaleSleepers(states: seq<State>, steps: seq<Step>, k: nat)
    requires IsRun(OnEpoch, states, steps) && k < |states|
    ensures NoStaleSleeper(states[k])
  {
    if k > 0 {
      hide Next, Inv;
      NoStaleSleepers(states, steps, k - 1);
      RunKeepsInv(OnEpoch, states, steps, k - 1);
      var s, step := states[k - 1], steps[k - 1];
      assert Leads(OnEpoch, s, step, states[k]);
      forall w, d | Sleeping(states[k], w) && d in states[k].done ensures states[k].waiters[w].epoch > d.prior {
        StaleSleeperStep(s, step, w, d);
      }
    }
  }

  /** When parking blocks only while the epoch is unchanged, no wakeup is ever lost. */
  lemma NoLostWakeup(states: seq<State>, steps: seq<Step>, k: nat)
    requires IsRun(OnEpoch, states, steps) && k < |states|
    ensures !LostWakeup(states[k])
  {
    RunKeepsInv(OnEpoch, states, steps, k);
    NoStaleSleepers(states, steps, k);
    NoStaleNoLost(states[k]);
  }

  // ----- notify-one -----

  lemma {:induction false} DoneStays(parking: Parking, states: seq<State>, steps: seq<Step>, i: nat, k: nat)
    requires IsRun(parking, states, steps) && i <= k < |states|
    ensures states[i].done <= states[k].done
    decreases k
  {
    if i < k {
      DoneStays(parking, states, steps, i, k - 1);
      assert Leads(parking, states[k - 1], steps[k - 1], states[k]);
      DoneGrows(parking, states[k - 1], steps[k - 1]);
    }
  }

  lemma DoneGrows(parking: Parking, s: State, step: Step)
    requires Next(parking, s, step).Some?
    ensures s.done <= Next(parking, s, step).value.done
  {
    hide Epoch, Waiters, AddWaiter, SubWaiter, BumpEpoch;
  }

  /** A notify-one that found a sleeper has woken one; one that found none leaves no thread
  that looked before its publish asleep, then or ever after. */
  lemma NotifyOneDelivers(states: seq<State>, steps: seq<Step>, i: nat, k: nat)
    requires IsRun(OnEpoch, states, steps) && i < k < |states| && steps[i].WakeSomeone?
    ensures var p, w := steps[i].p, steps[i].w;
            || (Sleeping(states[i], w) && !Sleeping(states[i + 1], w))
            || (p in states[i].notifiers
                && forall v :: Sleeping(states[k], v) ==> states[k].waiters[v].seen >= states[i].notifiers[p].work)
  {
    hide Epoch;
    assert Leads(OnEpoch, states[i], steps[i], states[i + 1]);
    DoneStays(OnEpoch, states, steps, i + 1, k);
    NoLostWakeup(states, steps, k);
  }
}
