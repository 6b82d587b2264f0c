/** Actors created, killed and removed by many threads at once (bootstrap/actor.c:82-118, 338-431). */
module KillRace {
  // The kill sections under the striped locks and the global live counter.
  //
  // Each load, store, atomic addition, lock and unlock is one step.  A thread may start to kill
  // any actor at any time, which covers every cascade; after a kill section it calls
  // `actor_notify_exit`, recorded as an announcement.  A supervisor primitive that removes a
  // child (bootstrap/primitives.c:3769-3775) stores `alive` without lock and counter.

  import opened Options
  import opened Sets

  type Tid = nat

  const ACTOR_LOCK_STRIPES: nat := 4

  function Stripe(a: nat): (r: nat) { a % ACTOR_LOCK_STRIPES }

  datatype Stage =
    | Created    // registered, not yet counted
    | Wants      // about to lock
    | Locked     // about to load `alive`
    | Missed     // was dead already
    | Seen       // was alive
    | Marked     // `alive` cleared, counter not yet dropped
    | Counted    // counter dropped, about to unlock
    | Removing   // remove-child has loaded `alive`, which was set

  /** What a thread does to which actor. */
  datatype Pc = Idle | At(stage: Stage, a: nat)

  /** The shared words and the history: `makers` and `killers` name the threads that created
  and killed an actor, `counted` and `discounted` the actors added to and taken off the
  counter, `deaths` the kill sections that found their actor alive, `announced` the calls of
  `actor_notify_exit`, `wakes` how often a decrement reached zero and woke the schedulers. */
  datatype State = State(
    alive: map<nat, bool>, count: int, locks: map<nat, Tid>, pcs: map<Tid, Pc>,
    makers: map<nat, Tid>, killers: map<nat, Tid>,
    counted: set<nat>, discounted: set<nat>, deaths: multiset<nat>, announced: multiset<nat>, wakes: nat)

  const START := State(map[], 0, map[], map[], map[], map[], {}, {}, multiset{}, multiset{}, 0)

  datatype Choice = Create(a: nat) | Kill(a: nat) | Remove(a: nat) | Continue

  predicate InSection(pc: Pc) {
    pc.At? && (pc.stage.Locked? || pc.stage.Missed? || pc.stage.Seen? || pc.stage.Marked? || pc.stage.Counted?)
  }

  function Goes(s: State, t: Tid, pc: Pc): (r: State) { s.(pcs := s.pcs[t := pc]) }

  /** An actor can be named by others once `actor_create` has returned. */
  function Next(s: State, t: Tid, c: Choice): (r: Option<State>) {
    if t !in s.pcs then None
    else if s.pcs[t].At? then
      if c.Continue? && s.pcs[t].a in s.alive then Access(s, t, s.pcs[t].stage, s.pcs[t].a) else None
    else
      match c
      case Create(a) =>
        if a !in s.alive then
          Some(Goes(s.(alive := s.alive[a := true], makers := s.makers[a := t]), t, At(Created, a)))
        else None
      case Kill(a) => if a in s.counted then Some(Goes(s, t, At(Wants, a))) else None
      case Remove(a) =>
        if a in s.counted && a in s.alive then Some(if s.alive[a] then Goes(s, t, At(Removing, a)) else s)
        else None
      case Continue => None
  }

  /** The next access of a running operation; a lock that is taken blocks. */
  function Access(s: State, t: Tid, stage: Stage, a: nat): (r: Option<State>)
    requires a in s.alive
  {
    match stage
    case Created => Some(Goes(s.(count := s.count + 1, counted := s.counted + {a}), t, Idle))
    case Wants =>
      if Stripe(a) in s.locks then None
      else Some(Goes(s.(locks := s.locks[Stripe(a) := t]), t, At(Locked, a)))
    case Locked => Some(Goes(s, t, At(if s.alive[a] then Seen else Missed, a)))
    case Missed => Some(Goes(s.(locks := s.locks - {Stripe(a)}), t, Idle))
    case Seen =>
      Some(Goes(s.(alive := s.alive[a := false], deaths := s.deaths + multiset{a}, killers := s.killers[a := t]),
                t, At(Marked, a)))
    case Marked =>
      Some(Goes(s.(count := s.count - 1, discounted := s.discounted + {a},
                   wakes := s.wakes + if s.count == 1 then 1 else 0), t, At(Counted, a)))
    case Counted =>
      Some(Goes(s.(locks := s.locks - {Stripe(a)}, announced := s.announced + multiset{a}), t, Idle))
    case Removing => Some(Goes(s.(alive := s.alive[a := false]), t, Idle))
  }

  // ----- the invariant -----

  /** The history of one actor: created, counted, killed, discounted and announced in this
  order, each at most once, and dead for good. */
  ghost predicate ActorOk(s: State, a: nat) {
    && s.deaths[a] <= 1 && s.announced[a] <= 1
    && (a in s.announced ==> a in s.discounted)
    && (a in s.discounted ==> a in s.deaths)
    && (a in s.deaths ==> a in s.counted && a in s.alive && !s.alive[a])
    && (a in s.counted ==> a in s.alive)
  }

  ghost predicate CountOk(s: State) {
    s.count == |s.counted| - |s.discounted|
  }

  /** What a thread at a stage knows. */
  ghost predicate StageOk(s: State, t: Tid, stage: Stage, a: nat) {
    match stage
    case Created => a in s.alive && s.alive[a] && a !in s.counted && a in s.makers && s.makers[a] == t
    case Wants => a in s.counted
    case Locked => a in s.counted
    case Missed => a in s.counted
    case Seen => a in s.counted && a !in s.deaths
    case Marked => a in s.deaths && a !in s.discounted && a in s.killers && s.killers[a] == t
    case Counted => a in s.discounted && a !in s.announced && a in s.killers && s.killers[a] == t
    case Removing => a in s.counted
  }

  ghost predicate PcOk(s: State, t: Tid) {
    t in s.pcs && s.pcs[t].At? ==> StageOk(s, t, s.pcs[t].stage, s.pcs[t].a)
  }

  /** A thread in a kill section holds the stripe of its actor. */
  ghost predicate LockOk(s: State, t: Tid) {
    t in s.pcs && InSection(s.pcs[t]) ==> Stripe(s.pcs[t].a) in s.locks && s.locks[Stripe(s.pcs[t].a)] == t
  }

  ghost predicate Hand(s: State, who: map<nat, Tid>, stage: Stage, a: nat) {
    a in who && who[a] in s.pcs && s.pcs[who[a]] == At(stage, a)
  }

  /** Unfinished work on an actor is in the hands of the thread that began it. */
  ghost predicate WorkOk(s: State, a: nat) {
    && (a in s.alive && a !in s.counted ==> Hand(s, s.makers, Created, a))
    && (a in s.deaths && a !in s.discounted ==> Hand(s, s.killers, Marked, a))
    && (a in s.discounted && a !in s.announced ==> Hand(s, s.killers, Counted, a))
  }

  ghost predicate Inv(s: State) {
    && CountOk(s)
    && (forall a :: ActorOk(s, a) && WorkOk(s, a))
    && (forall t :: PcOk(s, t) && LockOk(s, t))
  }

  // What an access keeps: of an actor `x`, of a thread `u`, of the counter.

  predicate Ready(s: State, t: Tid, stage: Stage, a: nat) {
    t in s.pcs && s.pcs[t] == At(stage, a) && a in s.alive && Access(s, t, stage, a).Some?
  }

  lemma AccessKeepsActor(s: State, t: Tid, stage: Stage, a: nat, x: nat)
    requires Ready(s, t, stage, a) && PcOk(s, t) && ActorOk(s, x)
    ensures ActorOk(Access(s, t, stage, a).value, x)
  {
    hide Stripe;
  }

  lemma AccessKeepsWork(s: State, t: Tid, stage: Stage, a: nat, x: nat)
    requires Ready(s, t, stage, a) && PcOk(s, t) && ActorOk(s, x) && WorkOk(s, x)
    ensures WorkOk(Access(s, t, stage, a).value, x)
  {
    hide Stripe;
  }

  lemma AccessKeepsLock(s: State, t: Tid, stage: Stage, a: nat, u: Tid)
    requires Ready(s, t, stage, a) && LockOk(s, t) && LockOk(s, u)
    ensures LockOk(Access(s, t, stage, a).value, u)
  {
    hide Stripe;
  }

  lemma AccessMovesOn(s: State, t: Tid, stage: Stage, a: nat)
    requires Ready(s, t, stage, a) && PcOk(s, t) && ActorOk(s, a)
    ensures PcOk(Access(s, t, stage, a).value, t)
  {
    hide Stripe;
  }

  lemma OthersKeep(s: State, t: Tid, stage: Stage, a: nat, u: Tid)
    requires Ready(s, t, stage, a) && PcOk(s, t) && LockOk(s, t) && t != u && PcOk(s, u) && LockOk(s, u)
    ensures PcOk(Access(s, t, stage, a).value, u)
  {
    hide Stripe;
  }

  lemma AccessKeepsCount(s: State, t: Tid, stage: Stage, a: nat)
    requires Ready(s, t, stage, a) && PcOk(s, t) && CountOk(s)
    ensures CountOk(Access(s, t, stage, a).value)
  {
    hide Stripe;
  }

  lemma AccessKeepsInv(s: State, t: Tid, stage: Stage, a: nat)
    requires Inv(s) && Ready(s, t, stage, a)
    ensures Inv(Access(s, t, stage, a).value)
  {
    hide ActorOk, WorkOk, PcOk, LockOk, CountOk, Access;
    var s' := Access(s, t, stage, a).value;
    AccessKeepsCount(s, t, stage, a);
    forall x ensures ActorOk(s', x) && WorkOk(s', x) {
      AccessKeepsActor(s, t, stage, a, x);
      AccessKeepsWork(s, t, stage, a, x);
    }
    forall u ensures PcOk(s', u) && LockOk(s', u) {
      AccessKeepsLock(s, t, stage, a, u);
      AccessMovesOn(s, t, stage, a);
      if u != t {
        OthersKeep(s, t, stage, a, u);
      }
    }
  }

  lemma StartKeeps(s: State, t: Tid, c: Choice, x: nat, u: Tid)
    requires t in s.pcs && s.pcs[t].Idle? && Next(s, t, c).Some? && (c.Create? ==> ActorOk(s, c.a))
    requires ActorOk(s, x) && WorkOk(s, x) && PcOk(s, u) && LockOk(s, u)
    ensures var s' := Next(s, t, c).value; ActorOk(s', x) && WorkOk(s', x) && PcOk(s', u) && LockOk(s', u)
  {
    hide Access, Stripe;
  }

  lemma StartKeepsInv(s: State, t: Tid, c: Choice)
    requires Inv(s) && t in s.pcs && s.pcs[t].Idle? && Next(s, t, c).Some?
    ensures Inv(Next(s, t, c).value)
  {
    var s' := Next(s, t, c).value;
    assert CountOk(s');
    hide ActorOk, WorkOk, PcOk, LockOk, CountOk, Next;
    forall a ensures ActorOk(s', a) && WorkOk(s', a) {
      StartKeeps(s, t, c, a, t);
    }
    forall u ensures PcOk(s', u) && LockOk(s', u) {
      StartKeeps(s, t, c, 0, u);
    }
  }

  lemma NextKeepsInv(s: State, t: Tid, c: Choice)
    requires Inv(s) && Next(s, t, c).Some?
    ensures Inv(Next(s, t, c).value)
  {
    hide Inv, Access;
    if s.pcs[t].At? {
      AccessKeepsInv(s, t, s.pcs[t].stage, s.pcs[t].a);
    } else {
      StartKeepsInv(s, t, c);
    }
  }

  /** Two threads in kill sections work on actors of different stripes. */
  lemma SectionsExclude(s: State, t: Tid, u: Tid)
    requires Inv(s) && t in s.pcs && u in s.pcs && t != u && InSection(s.pcs[t]) && InSection(s.pcs[u])
    ensures s.pcs[t].a % 4 != s.pcs[u].a % 4
  {
    assert LockOk(s, t) && LockOk(s, u);
  }

  // ----- whole runs -----

  type Label = (Tid, Choice)

  ghost predicate Init(s: State) {
    s == START.(pcs := s.pcs) && forall t :: t in s.pcs ==> s.pcs[t].Idle?
  }

  ghost predicate Leads(s: State, l: Label, s': State) {
    Next(s, l.0, l.1) == Some(s')
  }

  ghost predicate IsRun(states: seq<State>, labels: seq<Label>) {
    && |states| == |labels| + 1 && Init(states[0])
    && (forall i :: 0 <= i < |labels| ==> Leads(states[i], labels[i], states[i + 1]))
  }

  lemma {:induction false} RunKeepsInv(states: seq<State>, labels: seq<Label>, k: nat)
    requires IsRun(states, labels) && k < |states|
    ensures Inv(states[k])
  {
    if k > 0 {
      hide Next, Inv;
      RunKeepsInv(states, labels, k - 1);
      assert Leads(states[k - 1], labels[k - 1], states[k]);
      NextKeepsInv(states[k - 1], labels[k - 1].0, labels[k - 1].1);
    }
  }

  predicate Dead(s: State, a: nat) {
    a in s.alive && !s.alive[a]
  }

  /** Nothing that has happened to `a` is undone. */
  ghost predicate Later(s: State, s': State, a: nat) {
    && (a in s.counted ==> a in s'.counted) && (a in s.deaths ==> a in s'.deaths)
    && (Dead(s, a) ==> Dead(s', a))
  }

  lemma StepIsLater(s: State, l: Label, s': State, a: nat)
    requires Leads(s, l, s')
    ensures Later(s, s', a)
  {
    hide Access, Later;
    if s.pcs[l.0].At? {
      AccessIsLater(s, l.0, s.pcs[l.0].stage, s.pcs[l.0].a, a);
    } else {
      StartIsLater(s, l, s', a);
    }
  }

  lemma StartIsLater(s: State, l: Label, s': State, a: nat)
    requires Leads(s, l, s') && l.0 in s.pcs && s.pcs[l.0].Idle?
    ensures Later(s, s', a)
  {
    hide Access;
  }

  lemma AccessIsLater(s: State, t: Tid, stage: Stage, a: nat, x: nat)
    requires a in s.alive && Access(s, t, stage, a).Some?
    ensures Later(s, Access(s, t, stage, a).value, x)
  {
    hide Stripe;
  }

  /** In every interleaving each actor is killed at most once, its exit is announced at most
  once and only after its death, and it stays dead. */
  lemma {:induction false} KilledAtMostOnce(states: seq<State>, labels: seq<Label>, j: nat, k: nat, a: nat)
    requires IsRun(states, labels) && j <= k < |states|
    ensures states[k].deaths[a] <= 1 && states[k].announced[a] <= states[k].deaths[a]
    ensures Later(states[j], states[k], a)
    decreases k
  {
    RunKeepsInv(states, labels, k);
    assert ActorOk(states[k], a);
    if j < k {
      hide Inv, Leads;
      KilledAtMostOnce(states, labels, j, k - 1, a);
      StepIsLater(states[k - 1], labels[k - 1], states[k], a);
    }
  }

  // ----- a kill section does what it began -----

  /** Between the load that found `a` alive and the end of the section. */
  predicate Killing(s: State, t: Tid, a: nat) {
    t in s.pcs && (s.pcs[t] == At(Seen, a) || s.pcs[t] == At(Marked, a) || s.pcs[t] == At(Counted, a))
  }

  lemma KillingGoesOn(s: State, l: Label, s': State, t: Tid, a: nat)
    requires Leads(s, l, s') && (Killing(s, t, a) || (a in s.announced))
    ensures Killing(s', t, a) || a in s'.announced
  {
    hide Access;
    if l.0 == t && s.pcs[t].At? {
      OwnAccess(s, t, s.pcs[t].stage, s.pcs[t].a, a);
    } else if s.pcs[l.0].At? {
      OtherAccess(s, l.0, s.pcs[l.0].stage, s.pcs[l.0].a, t, a);
    }
  }

  lemma OwnAccess(s: State, t: Tid, stage: Stage, b: nat, a: nat)
    requires Ready(s, t, stage, b) && (Killing(s, t, a) || a in s.announced)
    ensures var s' := Access(s, t, stage, b).value; Killing(s', t, a) || a in s'.announced
  {
    hide Stripe;
  }

  lemma OtherAccess(s: State, u: Tid, stage: Stage, b: nat, t: Tid, a: nat)
    requires Ready(s, u, stage, b) && u != t && (Killing(s, t, a) || a in s.announced)
    ensures var s' := Access(s, u, stage, b).value; Killing(s', t, a) || a in s'.announced
  {
    hide Stripe;
  }

  lemma {:induction false} KillingToTheEnd(states: seq<State>, labels: seq<Label>, j: nat, k: nat, t: Tid, a: nat)
    requires IsRun(states, labels) && j <= k < |states| && Killing(states[j], t, a)
    ensures Killing(states[k], t, a) || a in states[k].announced
    decreases k
  {
    if j < k {
      hide Leads, Killing;
      KillingToTheEnd(states, labels, j, k - 1, t, a);
      KillingGoesOn(states[k - 1], labels[k - 1], states[k], t, a);
    }
  }

  /** The load under the lock that finds `a` alive. */
  lemma FindsAlive(s: State, l: Label, s': State, t: Tid, a: nat)
    requires Leads(s, l, s') && l.0 == t && t in s.pcs && s.pcs[t] == At(Locked, a) && a in s.alive && s.alive[a]
    ensures Killing(s', t, a)
  {
  }

  /** A thread that under its lock loads a flag still set has, once it is no longer in a kill
  section of that actor, killed the actor and announced its exit. */
  lemma SeenAliveIsKilled(states: seq<State>, labels: seq<Label>, j: nat, k: nat, t: Tid, a: nat)
    requires IsRun(states, labels) && j < k < |states| && labels[j].0 == t
    requires t in states[j].pcs && states[j].pcs[t] == At(Locked, a) && a in states[j].alive && states[j].alive[a]
    requires t in states[k].pcs && !(InSection(states[k].pcs[t]) && states[k].pcs[t].a == a)
    ensures Dead(states[k], a) && states[k].deaths[a] == 1 && states[k].announced[a] == 1
  {
    assert Leads(states[j], labels[j], states[j + 1]);
    FindsAlive(states[j], labels[j], states[j + 1], t, a);
    KillingToTheEnd(states, labels, j + 1, k, t, a);
    RunKeepsInv(states, labels, k);
    assert ActorOk(states[k], a);
  }

  /** The state after thread `t` runs `n` accesses alone. */
  function Alone(s: State, t: Tid, n: nat): (r: Option<State>) {
    if n == 0 then Some(s)
    else
      match Alone(s, t, n - 1)
      case None => None
      case Some(r) => Next(r, t, Continue)
  }

  /** Thread `t`, everybody else being as in `x`, makes its next access. */
  lemma NextAccess(s: State, t: Tid, n: nat, x: State, stage: Stage, a: nat)
    requires Alone(s, t, n) == Some(Goes(x, t, At(stage, a))) && a in x.alive && Access(x, t, stage, a).Some?
    ensures Alone(s, t, n + 1) == Access(x, t, stage, a)
  {
    var y := Goes(x, t, At(stage, a));
    assert y.pcs[t := Idle] == x.pcs[t := Idle];
    assert forall st :: y.pcs[t := At(st, a)] == x.pcs[t := At(st, a)];
    hide Stripe, Alone;
    assert Access(y, t, stage, a) == Access(x, t, stage, a);
    assert Next(y, t, Continue) == Access(y, t, stage, a);
    Unfold(s, t, n);
  }

  lemma Unfold(s: State, t: Tid, n: nat)
    requires Alone(s, t, n).Some?
    ensures Alone(s, t, n + 1) == Next(Alone(s, t, n).value, t, Continue)
  {
  }

  /** A kill that runs alone: lock, load, store, decrement, unlock.  A live actor is dead
  afterwards, counted down and announced; a dead one is left alone. */
  lemma KillAlone(s: State, t: Tid, a: nat)
    requires Inv(s) && t in s.pcs && s.pcs[t].Idle? && a in s.counted && Stripe(a) !in s.locks
    ensures a in s.alive && Next(s, t, Kill(a)).Some?
    ensures var s1 := Next(s, t, Kill(a)).value;
            if s.alive[a] then
              && Alone(s1, t, 5).Some?
              && var r := Alone(s1, t, 5).value;
              && r.pcs == s.pcs && r.locks == s.locks && r.alive == s.alive[a := false] && r.count == s.count - 1
              && r.deaths == s.deaths + multiset{a} && r.announced == s.announced + multiset{a}
              && r.wakes == s.wakes + if s.count == 1 then 1 else 0
            else Alone(s1, t, 3) == Some(s)
  {
    assert ActorOk(s, a);
    hide Inv, Stripe, Alone, ActorOk;
    KillLocks(s, t, a);
    if s.alive[a] {
      KillsLive(s, Next(s, t, Kill(a)).value, t, a);
    }
  }

  /** Up to the load of the flag, and to the end when it is not set. */
  lemma KillLocks(s: State, t: Tid, a: nat)
    requires t in s.pcs && s.pcs[t].Idle? && a in s.counted && Stripe(a) !in s.locks && a in s.alive
    ensures Next(s, t, Kill(a)).Some?
    ensures var s1, x := Next(s, t, Kill(a)).value, s.(locks := s.locks[Stripe(a) := t]);
            && (s.alive[a] ==> Alone(s1, t, 2) == Some(Goes(x, t, At(Seen, a))))
            && (!s.alive[a] ==> Alone(s1, t, 3) == Some(s))
  {
    hide Stripe, Alone;
    var s1 := Next(s, t, Kill(a)).value;
    NothingYet(s1, t);
    NextAccess(s1, t, 0, s, Wants, a);
    var x := s.(locks := s.locks[Stripe(a) := t]);
    NextAccess(s1, t, 1, x, Locked, a);
    if !s.alive[a] {
      NextAccess(s1, t, 2, x, Missed, a);
      assert x.locks - {Stripe(a)} == s.locks && s.pcs[t := Idle] == s.pcs;
    }
  }

  lemma KillsLive(s: State, s1: State, t: Tid, a: nat)
    requires t in s.pcs && s.pcs[t].Idle? && Stripe(a) !in s.locks && a in s.alive
    requires Alone(s1, t, 2) == Some(Goes(s.(locks := s.locks[Stripe(a) := t]), t, At(Seen, a)))
    ensures Alone(s1, t, 5).Some?
    ensures var r := Alone(s1, t, 5).value;
            && r.pcs == s.pcs && r.locks == s.locks && r.alive == s.alive[a := false] && r.count == s.count - 1
            && r.deaths == s.deaths + multiset{a} && r.announced == s.announced + multiset{a}
            && r.wakes == s.wakes + if s.count == 1 then 1 else 0
  {
    hide Stripe, Alone;
    var x := s.(locks := s.locks[Stripe(a) := t]);
    NextAccess(s1, t, 2, x, Seen, a);
    x := x.(alive := s.alive[a := false], deaths := s.deaths + multiset{a}, killers := s.killers[a := t]);
    NextAccess(s1, t, 3, x, Marked, a);
    x := x.(count := s.count - 1, discounted := s.discounted + {a},
            wakes := s.wakes + if s.count == 1 then 1 else 0);
    NextAccess(s1, t, 4, x, Counted, a);
    assert x.locks - {Stripe(a)} == s.locks && s.pcs[t := Idle] == s.pcs;
  }

  lemma NothingYet(s: State, t: Tid)
    ensures Alone(s, t, 0) == Some(s)
  {
  }

  // ----- the live counter -----

  ghost function Live(s: State): (r: set<nat>) {
    set a | a in s.alive && s.alive[a]
  }

  /** Dead, but not by a kill section. */
  ghost function Orphans(s: State): (r: set<nat>) {
    set a | a in s.alive && !s.alive[a] && a !in s.deaths
  }

  ghost function ThreadsAt(s: State, stage: Stage): (r: set<Tid>) {
    set t | t in s.pcs && s.pcs[t].At? && s.pcs[t].stage == stage
  }

  ghost function ActorsAt(s: State, stage: Stage): (r: set<nat>) {
    set a | a in s.alive && exists t :: t in s.pcs && s.pcs[t] == At(stage, a)
  }

  /** Threads that create or kill work on different actors. */
  lemma OneThreadEach(s: State, stage: Stage)
    requires Inv(s) && (stage.Created? || stage.Marked?)
    ensures |ThreadsAt(s, stage)| == |ActorsAt(s, stage)|
  {
    var pos := map t | t in ThreadsAt(s, stage) :: s.pcs[t].a;
    forall t, u | t in pos && u in pos && pos[t] == pos[u] ensures t == u {
      assert PcOk(s, t) && PcOk(s, u);
    }
    InjectiveImage(pos);
    forall t | t in pos ensures pos[t] in ActorsAt(s, stage) {
      assert PcOk(s, t) && ActorOk(s, pos[t]);
    }
    forall a | a in ActorsAt(s, stage) ensures a in pos.Values {
      var t :| t in s.pcs && s.pcs[t] == At(stage, a);
      assert pos[t] == a;
    }
    assert pos.Keys == ThreadsAt(s, stage) && pos.Values == ActorsAt(s, stage);
  }

  lemma UncountedActors(s: State)
    requires Inv(s)
    ensures ActorsAt(s, Created) == s.alive.Keys - s.counted && s.counted <= s.alive.Keys
  {
    forall a | a in s.counted ensures a in s.alive { assert ActorOk(s, a); }
    forall a | a in s.alive.Keys - s.counted ensures a in ActorsAt(s, Created) {
      assert WorkOk(s, a);
      assert s.makers[a] in ThreadsAt(s, Created);
    }
    forall t | t in ThreadsAt(s, Created) ensures s.pcs[t].a in s.alive.Keys - s.counted { assert PcOk(s, t); }
  }

  /** Killed and not yet taken off the counter. */
  lemma UndiscountedActors(s: State)
    requires Inv(s)
    ensures ActorsAt(s, Marked) == s.alive.Keys - Live(s) - Orphans(s) - s.discounted
    ensures s.discounted <= s.alive.Keys - Live(s) - Orphans(s)
  {
    forall a | a in s.discounted || a in s.deaths
      ensures (a in s.discounted ==> a in s.deaths) && a in s.alive && !s.alive[a]
    {
      assert ActorOk(s, a);
    }
    forall a | a in s.deaths && a !in s.discounted ensures a in ActorsAt(s, Marked) {
      assert WorkOk(s, a);
      assert s.killers[a] in ThreadsAt(s, Marked);
    }
    forall t | t in ThreadsAt(s, Marked) ensures s.pcs[t].a in s.deaths && s.pcs[t].a !in s.discounted {
      assert PcOk(s, t);
    }
  }

  lemma PartSizes(a: set<nat>, b: set<nat>)
    requires a <= b
    ensures |b| == |a| + |b - a|
  {
    assert b == a + (b - a);
  }

  /** In every reachable state: the counter, with the creations still to be counted, is the
  number of live actors, of deaths still to be discounted and of orphans. */
  lemma CounterExact(s: State)
    requires Inv(s)
    ensures s.count + |ThreadsAt(s, Created)| == |Live(s)| + |ThreadsAt(s, Marked)| + |Orphans(s)|
    ensures s.count >= 0
  {
    OneThreadEach(s, Created);
    OneThreadEach(s, Marked);
    UncountedActors(s);
    UndiscountedActors(s);
    NotNegative(s);
    assert s.count == |s.counted| - |s.discounted|;
    hide Inv, ThreadsAt, ActorsAt;
    PartSizes(s.counted, s.alive.Keys);
    var dead := s.alive.Keys - Live(s) - Orphans(s);
    PartSizes(s.discounted, dead);
    PartSizes(Live(s), s.alive.Keys);
    PartSizes(Orphans(s), s.alive.Keys - Live(s));
  }

  lemma NotNegative(s: State)
    requires Inv(s)
    ensures |s.discounted| <= |s.counted|
  {
    forall a | a in s.discounted ensures a in s.counted { assert ActorOk(s, a); }
    SubsetSize(s.discounted, s.counted);
  }

  ghost predicate Settled(s: State) {
    forall t :: t in s.pcs ==> s.pcs[t].Idle?
  }

  /** Once every operation is finished, every killed actor's exit has been announced, and the
  counter exceeds the live actors by the orphans, whose exit nobody has announced. */
  lemma SettledCounter(s: State)
    requires Inv(s) && Settled(s)
    ensures s.count == |Live(s)| + |Orphans(s)|
    ensures forall a :: s.announced[a] == s.deaths[a] == if Dead(s, a) && a !in Orphans(s) then 1 else 0
  {
    CounterExact(s);
    assert ThreadsAt(s, Created) == {} && ThreadsAt(s, Marked) == {};
    forall a
      ensures s.announced[a] == s.deaths[a] == if Dead(s, a) && a !in Orphans(s) then 1 else 0
    {
      assert ActorOk(s, a) && WorkOk(s, a);
    }
  }

  // ----- removed children -----

  /** Remove-child's store takes the life of `a`, while no kill section has seen it alive. */
  ghost predicate RemovesAlone(s: State, l: Label, a: nat) {
    && l.0 in s.pcs && s.pcs[l.0] == At(Removing, a) && a in s.alive && s.alive[a]
    && forall u :: u in s.pcs ==> s.pcs[u] != At(Seen, a)
  }

  /** Dead without a kill section, and with none under way. */
  ghost predicate Lost(s: State, a: nat) {
    a in Orphans(s) && forall u :: u in s.pcs ==> s.pcs[u] != At(Seen, a)
  }

  lemma LostStays(s: State, l: Label, s': State, a: nat)
    requires Leads(s, l, s') && Lost(s, a)
    ensures Lost(s', a)
  {
    hide Access;
    if s.pcs[l.0].At? {
      AccessKeepsLost(s, l.0, s.pcs[l.0].stage, s.pcs[l.0].a, a);
    }
  }

  lemma AccessKeepsLost(s: State, t: Tid, stage: Stage, a: nat, x: nat)
    requires Ready(s, t, stage, a) && Lost(s, x)
    ensures Lost(Access(s, t, stage, a).value, x)
  {
    hide Stripe;
  }

  lemma {:induction false} LostForGood(states: seq<State>, labels: seq<Label>, j: nat, k: nat, a: nat)
    requires IsRun(states, labels) && j <= k < |states| && Lost(states[j], a)
    ensures Lost(states[k], a)
    decreases k
  {
    hide Lost, Leads;
    if j < k {
      LostForGood(states, labels, j, k - 1, a);
      LostStays(states[k - 1], labels[k - 1], states[k], a);
    }
  }

  /** A kill section that has seen its actor alive kills it. */
  lemma {:induction false} SeenDies(states: seq<State>, labels: seq<Label>, j: nat, k: nat, t: Tid, a: nat)
    requires IsRun(states, labels) && j <= k < |states| && t in states[j].pcs && states[j].pcs[t] == At(Seen, a)
    ensures a in states[k].deaths || (t in states[k].pcs && states[k].pcs[t] == At(Seen, a))
    decreases k
  {
    if j < k {
      hide Init, Leads;
      SeenDies(states, labels, j, k - 1, t, a);
      StepIsLater(states[k - 1], labels[k - 1], states[k], a);
      if a !in states[k - 1].deaths {
        SeenMarks(states[k - 1], labels[k - 1], states[k], t, a);
      }
    }
  }

  lemma SeenMarks(s: State, l: Label, s': State, t: Tid, a: nat)
    requires Leads(s, l, s') && t in s.pcs && s.pcs[t] == At(Seen, a)
    ensures a in s'.deaths || (t in s'.pcs && s'.pcs[t] == At(Seen, a))
  {
    hide Access;
    if l.0 == t {
      assert Access(s, t, Seen, a).value.deaths == s.deaths + multiset{a} by { SeenAccess(s, t, a); }
    } else if s.pcs[l.0].At? {
      OthersStay(s, l.0, s.pcs[l.0].stage, s.pcs[l.0].a, t);
    }
  }

  lemma SeenAccess(s: State, t: Tid, a: nat)
    requires a in s.alive
    ensures Access(s, t, Seen, a).Some? && Access(s, t, Seen, a).value.deaths == s.deaths + multiset{a}
  {
  }

  lemma OthersStay(s: State, t: Tid, stage: Stage, a: nat, u: Tid)
    requires Ready(s, t, stage, a) && t != u && u in s.pcs
    ensures u in Access(s, t, stage, a).value.pcs && Access(s, t, stage, a).value.pcs[u] == s.pcs[u]
  {
    hide Stripe;
  }

  /** The step in which an actor's life ended. */
  lemma {:induction false} LifeEnds(states: seq<State>, labels: seq<Label>, k: nat, a: nat) returns (i: nat)
    requires IsRun(states, labels) && k < |states| && Dead(states[k], a)
    ensures i < k && a in states[i].alive && states[i].alive[a] && Dead(states[i + 1], a)
  {
    assert k > 0;
    hide Leads;
    if Dead(states[k - 1], a) {
      i := LifeEnds(states, labels, k - 1, a);
    } else {
      BornAlive(states[k - 1], labels[k - 1], states[k], a);
      i := k - 1;
    }
  }

  lemma BornAlive(s: State, l: Label, s': State, a: nat)
    requires Leads(s, l, s') && Dead(s', a)
    ensures a in s.alive
  {
    hide Access;
    if s.pcs[l.0].At? {
      AccessCreatesNobody(s, l.0, s.pcs[l.0].stage, s.pcs[l.0].a);
    }
  }

  lemma AccessCreatesNobody(s: State, t: Tid, stage: Stage, a: nat)
    requires Ready(s, t, stage, a)
    ensures Access(s, t, stage, a).value.alive.Keys == s.alive.Keys
  {
    hide Stripe;
  }

  lemma EndOfLife(s: State, l: Label, s': State, a: nat)
    requires Leads(s, l, s') && a in s.alive && s.alive[a] && a in s'.alive && !s'.alive[a]
    ensures l.0 in s.pcs && (s.pcs[l.0] == At(Removing, a) || a in s'.deaths)
  {
    hide Stripe;
  }

  /** The orphans of a finished run are exactly the actors that a remove-child killed alone. */
  lemma OrphanExactly(states: seq<State>, labels: seq<Label>, k: nat, a: nat)
    requires IsRun(states, labels) && k < |states| && Settled(states[k])
    ensures a in Orphans(states[k]) <==> exists i :: 0 <= i < k && RemovesAlone(states[i], labels[i], a)
  {
    hide Leads;
    if a in Orphans(states[k]) {
      var i := LifeEnds(states, labels, k, a);
      EndOfLife(states[i], labels[i], states[i + 1], a);
      KilledAtMostOnce(states, labels, i + 1, k, a);
      forall u | u in states[i].pcs ensures states[i].pcs[u] != At(Seen, a) {
        if states[i].pcs[u] == At(Seen, a) {
          SeenDies(states, labels, i, k, u, a);
        }
      }
      assert RemovesAlone(states[i], labels[i], a);
    }
    if i: nat :| i < k && RemovesAlone(states[i], labels[i], a) {
      RunKeepsInv(states, labels, i);
      RemovalLoses(states[i], labels[i], states[i + 1], a);
      LostForGood(states, labels, i + 1, k, a);
    }
  }

  lemma RemovalLoses(s: State, l: Label, s': State, a: nat)
    requires Inv(s) && Leads(s, l, s') && RemovesAlone(s, l, a)
    ensures Lost(s', a)
  {
    assert ActorOk(s, a);
    hide Inv, Stripe;
  }

  /** So the counter of a finished run is right exactly if no remove-child killed alone. */
  lemma CounterRightExactly(states: seq<State>, labels: seq<Label>, k: nat)
    requires IsRun(states, labels) && k < |states| && Settled(states[k])
    ensures states[k].count == |Live(states[k])| <==>
              forall i, a :: 0 <= i < k ==> !RemovesAlone(states[i], labels[i], a)
  {
    RunKeepsInv(states, labels, k);
    SettledCounter(states[k]);
    hide IsRun, Inv, Settled, RemovesAlone, Orphans, Live;
    if Orphans(states[k]) == {} {
      forall i, a | 0 <= i < k ensures !RemovesAlone(states[i], labels[i], a) {
        OrphanExactly(states, labels, k, a);
      }
    } else {
      var a :| a in Orphans(states[k]);
      OrphanExactly(states, labels, k, a);
    }
  }

  /** From then on the counter never reaches zero, whoever dies. */
  lemma NeverZeroAgain(states: seq<State>, labels: seq<Label>, i: nat, k: nat, a: nat)
    requires IsRun(states, labels) && i < k < |states| && RemovesAlone(states[i], labels[i], a)
    ensures states[k].count >= 1
  {
    hide Leads;
    RunKeepsInv(states, labels, i);
    assert PcOk(states[i], labels[i].0);
    RemovalLoses(states[i], labels[i], states[i + 1], a);
    LostForGood(states, labels, i + 1, k, a);
    RunKeepsInv(states, labels, k);
    KilledAtMostOnce(states, labels, i, k, a);
    StillOn(states[k], a);
  }

  lemma StillOn(s: State, a: nat)
    requires Inv(s) && a in s.counted && a !in s.deaths
    ensures s.count >= 1
  {
    forall x | x in s.discounted ensures x in s.counted - {a} { assert ActorOk(s, x); }
    SubsetSize(s.discounted, s.counted - {a});
  }

  /** A child is created and then removed: nobody lives, the counter says 1, and nobody has
  been told. */
  lemma RemovedChild() returns (states: seq<State>, labels: seq<Label>)
    ensures IsRun(states, labels) && Settled(states[|labels|])
    ensures var s := states[|labels|]; s.alive == map[7 := false] && s.count == 1 && s.announced == multiset{}
  {
    var s0 := START.(pcs := map[0 := Idle, 1 := Idle]);
    var s1 := Goes(s0.(alive := map[7 := true], makers := map[7 := 0]), 0, At(Created, 7));
    var s2 := Goes(s1.(count := 1, counted := {7}), 0, Idle);
    var s3 := Goes(s2, 1, At(Removing, 7));
    var s4 := Goes(s3.(alive := s3.alive[7 := false]), 1, Idle);
    states, labels := [s0, s1, s2, s3, s4], [(0, Create(7)), (0, Continue), (1, Remove(7)), (1, Continue)];
    assert s0.alive[7 := true] == map[7 := true] && s0.makers[7 := 0] == map[7 := 0];
    assert Leads(s0, labels[0], s1);
    assert s1.counted + {7} == {7};
    assert Leads(s1, labels[1], s2);
    assert Leads(s2, labels[2], s3);
    assert Leads(s3, labels[3], s4);
    assert s4.alive == map[7 := false];
  }

  // ----- the schedulers are woken when the last actor dies -----

  /** The decrement of step `i` found 1 and woke the schedulers, and the counter stays at
  zero until state `k`. */
  ghost predicate ZeroSince(states: seq<State>, i: nat, k: nat)
    requires i < k < |states|
  {
    && states[i].count == 1 && states[i + 1].wakes == states[i].wakes + 1
    && forall m :: i < m <= k ==> states[m].count == 0
  }

  /** Whenever the counter stands at zero after an actor has been counted, the decrement
  that brought it there woke the schedulers. */
  lemma {:induction false} ZeroWakes(states: seq<State>, labels: seq<Label>, k: nat) returns (i: nat)
    requires IsRun(states, labels) && k < |states| && states[k].count == 0 && states[k].counted != {}
    ensures i < k && ZeroSince(states, i, k)
  {
    assert k > 0;
    var s, l := states[k - 1], labels[k - 1];
    assert Leads(s, l, states[k]);
    RunKeepsInv(states, labels, k - 1);
    NotNegative(s);
    assert s.count >= 0;
    CounterMoves(s, l, states[k]);
    if s.count == 0 && s.counted != {} {
      hide Inv, Leads;
      i := ZeroWakes(states, labels, k - 1);
    } else {
      assert s.count == 0 ==> s.counted == {};
      i := k - 1;
    }
  }

  lemma CounterMoves(s: State, l: Label, s': State)
    requires Leads(s, l, s')
    ensures || (s'.count == s.count && s'.counted == s.counted)
            || s'.count == s.count + 1
            || (s'.count == s.count - 1 && s'.wakes == s.wakes + (if s.count == 1 then 1 else 0))
  {
    hide Access;
    if s.pcs[l.0].At? {
      AccessMovesCounter(s, l.0, s.pcs[l.0].stage, s.pcs[l.0].a);
    }
  }

  lemma AccessMovesCounter(s: State, t: Tid, stage: Stage, a: nat)
    requires Ready(s, t, stage, a)
    ensures var s' := Access(s, t, stage, a).value;
            || (s'.count == s.count && s'.counted == s.counted)
            || s'.count == s.count + 1
            || (s'.count == s.count - 1 && s'.wakes == s.wakes + (if s.count == 1 then 1 else 0))
  {
    hide Stripe;
  }
}
