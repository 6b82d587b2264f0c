/** Exactly who dies of the exit of an actor, and who is told (bootstrap/actor.c:340-688).

First the links with supervisors that restart one child only, then the group restarts that
reach further. */
module ExitReach {
  import opened ActorExit

  // ----- exactly who dies, and who is told -----

  /** A live actor that an error along a link kills. */
  predicate Vulnerable(actors: map<nat, Actor>, y: nat) {
    Live(actors, y) && !actors[y].trapExit
  }

  predicate Trapping(actors: map<nat, Actor>, y: nat) {
    Live(actors, y) && actors[y].trapExit
  }

  ghost function Killed(w: World, r: World): (k: set<nat>) {
    LiveSet(w.actors) - LiveSet(r.actors)
  }

  function Times(xs: seq<nat>, y: nat): (n: nat) {
    multiset(xs)[y]
  }

  lemma TimesOfHead(xs: seq<nat>)
    requires xs != []
    ensures forall y :: Times(xs, y) == (if xs[0] == y then 1 else 0) + Times(xs[1..], y)
  {
    assert xs == [xs[0]] + xs[1..];
  }

  lemma TimesOfNone()
    ensures forall y :: Times([], y) == 0
  {
  }

  /** Telling the monitors sends one :DOWN per registration of a live monitor and
  nothing else. */
  lemma {:induction false} MonitorsTold(w: World, ms: seq<nat>, a: nat, err: bool)
    requires Good(w)
    ensures var r := TellMonitors(w, ms, a, err);
            && (forall x, y, e :: r.sent[Exit(y, x, e)] == w.sent[Exit(y, x, e)])
            && (forall x, m, e :: r.sent[Down(m, x, e)] == w.sent[Down(m, x, e)] +
                  if x == a && e == err && Live(w.actors, m) then Times(ms, m) else 0)
    decreases |ms|
  {
    if ms != [] {
      SendFine(w, Down(ms[0], a, err));
      var w1 := if Live(w.actors, ms[0]) then Send(w, Down(ms[0], a, err)) else w;
      MonitorsTold(w1, ms[1..], a, err);
      TimesOfHead(ms);
      hide Times, Good, Fine;
    }
  }

  /** An exit without an error kills nobody, whatever the supervisors; linked trapping
  actors and monitors are told. */
  lemma NormalExitKillsNobody(w: World, a: nat)
    requires Good(w) && a in w.actors && !w.actors[a].alive
    ensures var r := NotifyExit(w, a, false);
            && LiveSet(r.actors) == LiveSet(w.actors) && r.deaths == w.deaths
            && r.actors == Detach(w, a).actors && r.actors[a].links == r.actors[a].monitors == []
            && (forall y :: r.sent[Exit(y, a, false)] == w.sent[Exit(y, a, false)]
                  + if Trapping(w.actors, y) then Times(w.actors[a].links, y) else 0)
            && (forall m :: r.sent[Down(m, a, false)] == w.sent[Down(m, a, false)]
                  + if Live(w.actors, m) then Times(w.actors[a].monitors, m) else 0)
  {
    var w1 := TellSupervisor(w, a, false);
    OnlySupsChange(w, a);
    hide TellSupervisor, Good, Evolves, NoLarger;
    var w2 := Detach(w1, a);
    DetachFine(w1, a);
    MonitorsTold(w2, w1.actors[a].monitors, a, false);
    var w3 := TellMonitors(w2, w1.actors[a].monitors, a, false);
    NormalLinks(w3, w1.actors[a].links, a);
    hide TellMonitors, TellLinks;
    assert forall y :: Trapping(w3.actors, y) == Trapping(w.actors, y) && Live(w2.actors, y) == Live(w.actors, y);
    assert LiveSet(w3.actors) == LiveSet(w.actors);
  }

  /** An exit signal without an error: a trapping actor gets one message, any other live one
  dies, and nobody with it. */
  lemma NormalSignal(w: World, t: nat, from: nat)
    requires Good(w)
    ensures var r := ExitSignal(w, t, from, false);
            if Trapping(w.actors, t) then r == w.(sent := w.sent + multiset{Exit(t, from, false)})
            else if Vulnerable(w.actors, t) then
              && LiveSet(r.actors) == LiveSet(w.actors) - {t} && r.deaths == w.deaths + [t]
              && r.actors.Keys == w.actors.Keys
              && forall b :: b in w.actors && b != t ==> r.actors[b] == w.actors[b]
            else r == w
  {
    if Vulnerable(w.actors, t) {
      NormalDeath(w, t);
      hide NotifyExit;
      assert ExitSignal(w, t, from, false) == NotifyExit(Kill(w, t), t, false);
    }
  }

  lemma NormalDeath(w: World, t: nat)
    requires Good(w) && Live(w.actors, t)
    ensures Good(Kill(w, t))
    ensures var r := NotifyExit(Kill(w, t), t, false);
            && LiveSet(r.actors) == LiveSet(w.actors) - {t} && r.deaths == w.deaths + [t]
            && r.actors.Keys == w.actors.Keys
            && forall b :: b in w.actors && b != t ==> r.actors[b] == w.actors[b]
  {
    hide Good, NotifyExit, Evolves, NoLarger, LiveSet, OneDies;
    KillFine(w, t);
    KillMeans(w, t);
    NormalExitKillsNobody(Kill(w, t), t);
    DeathAlone(w, t);
  }

  lemma DeathAlone(w: World, t: nat)
    requires Live(w.actors, t) && OneDies(w, Kill(w, t), t)
    ensures LiveSet(Kill(w, t).actors) == LiveSet(w.actors) - {t} && Kill(w, t).deaths == w.deaths + [t]
    ensures Detach(Kill(w, t), t).actors.Keys == w.actors.Keys
    ensures forall b :: b in w.actors && b != t ==> Detach(Kill(w, t), t).actors[b] == w.actors[b]
  {
  }

  /** An actor that ends normally dies alone; one that is dead already changes nothing. */
  lemma NormalFinish(w: World, a: nat)
    requires Good(w)
    ensures var r := Finish(w, a, false);
            if Live(w.actors, a) then
              && LiveSet(r.actors) == LiveSet(w.actors) - {a} && r.deaths == w.deaths + [a]
              && r.actors.Keys == w.actors.Keys
              && forall b :: b in w.actors && b != a ==> r.actors[b] == w.actors[b]
            else r == w
  {
    if Live(w.actors, a) {
      NormalDeath(w, a);
      hide NotifyExit;
      assert Finish(w, a, false) == NotifyExit(Kill(w, a), a, false);
    }
  }

  lemma OnlySupsChange(w: World, a: nat)
    requires Good(w) && a in w.actors && !w.actors[a].alive
    ensures TellSupervisor(w, a, false) == w.(sups := TellSupervisor(w, a, false).sups)
  {
  }

  lemma {:induction false} NormalLinks(w: World, links: seq<nat>, a: nat)
    requires Good(w)
    ensures var r := TellLinks(w, links, a, false);
            && r == w.(sent := r.sent)
            && (forall y :: r.sent[Exit(y, a, false)] == w.sent[Exit(y, a, false)]
                  + if Trapping(w.actors, y) then Times(links, y) else 0)
            && (forall m, x, e :: r.sent[Down(m, x, e)] == w.sent[Down(m, x, e)])
    decreases |links|
  {
    hide Times, Good, Evolves, NoLarger, TellLinks;
    if links != [] {
      var w1 := TellLink(w, links[0], a, false);
      NormalLinks(w1, links[1..], a);
      TimesOfHead(links);
      NormalLinksUnfold(w, links, a);
    } else {
      NormalLinksUnfold(w, links, a);
      assert forall y :: Times(links, y) == 0 by { TimesOfNone(); }
    }
  }

  lemma NormalLinksUnfold(w: World, links: seq<nat>, a: nat)
    requires Good(w)
    ensures TellLinks(w, links, a, false) ==
              if links == [] then w else TellLinks(TellLink(w, links[0], a, false), links[1..], a, false)
  {
    hide Good, Evolves, NoLarger;
  }

  // ----- supervisors that do no group restart -----

  /** When a child of this supervisor dies of an error, no other child is shut down: the
  strategy restarts one child, the restarts are used up, or no child is ever restarted. */
  predicate Gentle(sup: Supervisor) {
    || sup.strategy.OneForOne?
    || sup.restartCount >= SUP_MAX_RESTARTS
    || (sup.isDynamic && forall t :: t in sup.childRestart ==> t.Temporary?)
  }

  ghost predicate AllGentle(sups: seq<Supervisor>, S: set<nat>) {
    forall s, y :: 0 <= s < |sups| && y in S && y in sups[s].childIds ==> Gentle(sups[s])
  }

  /** A supervisor keeps its kind, and only new actors join it. */
  ghost predicate SupTame(p: Supervisor, q: Supervisor, nextId: nat) {
    && q.strategy == p.strategy && q.isDynamic == p.isDynamic && q.restartCount >= p.restartCount
    && (forall t :: t in q.childRestart ==> t in p.childRestart)
    && (forall id :: id in q.childIds ==> id in p.childIds || id >= nextId)
  }

  const RESTARTED: Actor := Actor(true, false, [], [])

  /** Supervisors stay tame and every new actor is a restarted child that nobody links to. */
  ghost predicate Tame(w: World, r: World) {
    && |r.sups| == |w.sups| && w.nextId <= r.nextId
    && (forall y :: y in w.actors ==> y in r.actors)
    && (forall s :: 0 <= s < |w.sups| ==> SupTame(w.sups[s], r.sups[s], w.nextId))
    && (forall n :: n in r.actors && n !in w.actors ==> n >= w.nextId && r.actors[n] == RESTARTED)
  }

  /** Tame, and nobody who was there before noticed anything. */
  ghost predicate Quiet(w: World, r: World) {
    && Tame(w, r) && r.sent == w.sent && r.deaths == w.deaths
    && (forall y :: y in w.actors ==> r.actors[y] == w.actors[y])
  }

  lemma RemovalTame(w: World, s: nat, i: nat)
    requires s < |w.sups| && i < |w.sups[s].childIds| == |w.sups[s].childRestart|
    ensures Quiet(w, RemoveChild(w, s, i))
  {
  }

  lemma RestartQuiet(w: World, s: nat, i: nat)
    requires Good(w) && s < |w.sups| && w.sups[s].restartCount < SUP_MAX_RESTARTS
    ensures Quiet(w, Spawn(SetSup(w, s, w.sups[s].(restartCount := w.sups[s].restartCount + 1)), s, i))
  {
  }

  /** The exit of a gentle supervisor's child shuts nobody down. */
  lemma GentleExit(w: World, s: nat, dead: nat)
    requires Good(w) && s < |w.sups| && Gentle(w.sups[s])
    ensures Quiet(w, HandleExit(w, s, dead))
  {
    hide Quiet, Spawn, RemoveChild;
    var sup := w.sups[s];
    var i := ChildIndex(sup.childIds, dead);
    if sup.restartCount < SUP_MAX_RESTARTS && i >= 0 {
      if sup.isDynamic && sup.childRestart[i].Temporary? {
        RemovalTame(w, s, i);
      } else {
        RestartQuiet(w, s, i);
      }
    } else {
      NothingQuiet(w);
    }
  }

  lemma NothingQuiet(w: World)
    ensures Quiet(w, w)
  {
  }

  // ----- errors inside an absorbing set -----

  /** `S` absorbs errors: a vulnerable actor linked from a live member is a member. */
  ghost predicate Absorbs(actors: map<nat, Actor>, S: set<nat>) {
    forall y, z :: y in S && Live(actors, y) && z in actors[y].links && Vulnerable(actors, z) ==> z in S
  }

  /** Links lead to ids that have been given out. */
  ghost predicate Wired(w: World) {
    forall y, z :: Live(w.actors, y) && z in w.actors[y].links ==> z < w.nextId
  }

  /** What an error sent by `a` to `seeds` does inside an absorbing set: it kills
  vulnerable members of `S` only, all vulnerable seeds, and with every victim all its
  vulnerable links. */
  ghost predicate KillsExactly(w: World, r: World, seeds: seq<nat>, S: set<nat>) {
    var K := Killed(w, r);
    && Tame(w, r)
    && K <= S
    && (forall y :: y in K ==> Vulnerable(w.actors, y))
    && (forall z :: z in seeds && Vulnerable(w.actors, z) ==> z in K)
    && (forall y, z :: y in K && z in w.actors[y].links && Vulnerable(w.actors, z) ==> z in K)
  }

  /** The :EXIT messages: one per link from a victim, or from `a` to a seed, to an actor
  that traps exits. */
  ghost predicate TellsExactly(w: World, r: World, seeds: seq<nat>, a: nat) {
    forall x, y ::
      r.sent[Exit(y, x, true)] == w.sent[Exit(y, x, true)] +
        if !Trapping(w.actors, y) then 0
        else (if x in Killed(w, r) then Times(w.actors[x].links, y) else 0)
             + (if x == a then Times(seeds, y) else 0)
  }

  /** The :DOWN messages: a monitor that is still alive afterwards got one per
  registration with a victim, or with `a` (whose registrations are `mons`). */
  ghost predicate DownsExactly(w: World, r: World, mons: seq<nat>, a: nat) {
    forall x, m :: m in w.actors && Live(r.actors, m) ==>
      r.sent[Down(m, x, true)] == w.sent[Down(m, x, true)]
        + (if x in Killed(w, r) then Times(w.actors[x].monitors, m) else 0)
        + (if x == a then Times(mons, m) else 0)
  }

  ghost predicate Exact(w: World, r: World, seeds: seq<nat>, mons: seq<nat>, a: nat, S: set<nat>)
    ensures Exact(w, r, seeds, mons, a, S) ==> Tame(w, r)
  {
    KillsExactly(w, r, seeds, S) && TellsExactly(w, r, seeds, a) && DownsExactly(w, r, mons, a)
  }

  ghost predicate Setting(w: World, a: nat, S: set<nat>)
    ensures Setting(w, a, S) ==> Good(w) && !Live(w.actors, a) && S <= w.actors.Keys
  {
    && Good(w) && Wired(w) && Absorbs(w.actors, S) && AllGentle(w.sups, S)
    && S <= w.actors.Keys && !Live(w.actors, a)
  }

  lemma GentleKept(w: World, r: World, S: set<nat>)
    requires Good(w) && Tame(w, r) && AllGentle(w.sups, S) && S <= w.actors.Keys
    ensures AllGentle(r.sups, S)
  {
    forall s, y | 0 <= s < |r.sups| && y in S && y in r.sups[s].childIds ensures Gentle(r.sups[s]) {
      assert SupTame(w.sups[s], r.sups[s], w.nextId);
      assert y in w.actors;
    }
  }

  lemma SettingKept(w: World, r: World, a: nat, S: set<nat>)
    requires Setting(w, a, S) && Fine(w, r) && Tame(w, r) && a in w.actors
    ensures Setting(r, a, S)
  {
    GentleKept(w, r, S);
    hide Gentle, NoLarger, AllGentle;
    forall y, z | y in S && Live(r.actors, y) && z in r.actors[y].links && Vulnerable(r.actors, z) ensures z in S {
      assert Live(w.actors, y) && z < w.nextId;
      assert z in w.actors && Vulnerable(w.actors, z);
    }
  }

  lemma KilledSplits(w: World, w1: World, r: World, S: set<nat>)
    requires Evolves(w, w1) && Evolves(w1, r) && Tame(w, w1)
    requires Killed(w1, r) <= S <= w.actors.Keys
    ensures Killed(w, r) == Killed(w, w1) + Killed(w1, r)
    ensures Killed(w, w1) !! Killed(w1, r)
    ensures forall y :: y in Killed(w1, r) ==> y in w.actors && w1.actors[y] == w.actors[y]
    ensures forall z :: z in w.actors ==> (Vulnerable(w1.actors, z) <==> Vulnerable(w.actors, z) && z !in Killed(w, w1))
    ensures forall z :: Trapping(w1.actors, z) <==> Trapping(w.actors, z) && z !in Killed(w, w1)
  {
  }

  lemma TameTrans(w: World, w1: World, r: World)
    requires Tame(w, w1) && Tame(w1, r) && Evolves(w1, r)
    requires forall n :: n in w1.actors && n !in w.actors ==> Live(r.actors, n)
    ensures Tame(w, r)
  {
    forall s | 0 <= s < |w.sups| ensures SupTame(w.sups[s], r.sups[s], w.nextId) {
      assert SupTame(w.sups[s], w1.sups[s], w.nextId) && SupTame(w1.sups[s], r.sups[s], w1.nextId);
    }
  }

  /** Restarted children are not among those an absorbing set loses. */
  lemma RestartedSurvive(w: World, w1: World, r: World, S: set<nat>)
    requires Tame(w, w1) && Killed(w1, r) <= S <= w.actors.Keys
    ensures forall n :: n in w1.actors && n !in w.actors ==> Live(r.actors, n)
  {
    forall n | n in w1.actors && n !in w.actors ensures Live(r.actors, n) {
      assert n in LiveSet(w1.actors) && n !in Killed(w1, r);
      assert n in LiveSet(r.actors);
    }
  }

  /** Two errors from the same actor one after the other. */
  lemma KillsCompose(w: World, w1: World, r: World, x: nat, rest: seq<nat>, S: set<nat>)
    requires Fine(w, w1) && Fine(w1, r) && S <= w.actors.Keys
    requires KillsExactly(w, w1, [x], S) && KillsExactly(w1, r, rest, S)
    ensures KillsExactly(w, r, [x] + rest, S)
  {
    hide Good, NoLarger;
    RestartedSurvive(w, w1, r, S);
    TameTrans(w, w1, r);
    KilledSplits(w, w1, r, S);
    hide Evolves, Tame;
  }

  lemma TellsCompose(w: World, w1: World, r: World, x: nat, rest: seq<nat>, a: nat, S: set<nat>)
    requires Fine(w, w1) && Fine(w1, r) && S <= w.actors.Keys
    requires KillsExactly(w, w1, [x], S) && KillsExactly(w1, r, rest, S)
    requires TellsExactly(w, w1, [x], a) && TellsExactly(w1, r, rest, a)
    ensures TellsExactly(w, r, [x] + rest, a)
  {
    hide Good, NoLarger;
    KilledSplits(w, w1, r, S);
    hide Evolves, Tame;
    forall b, y
      ensures r.sent[Exit(y, b, true)] == w.sent[Exit(y, b, true)] +
                if !Trapping(w.actors, y) then 0
                else (if b in Killed(w, r) then Times(w.actors[b].links, y) else 0)
                     + (if b == a then Times([x] + rest, y) else 0)
    {
      assert Times([x] + rest, y) == Times([x], y) + Times(rest, y);
      assert y in Killed(w, w1) ==> Vulnerable(w.actors, y);
    }
  }

  lemma DownsCompose(w: World, w1: World, r: World, a: nat, S: set<nat>)
    requires Fine(w, w1) && Fine(w1, r) && Tame(w, w1) && Killed(w1, r) <= S <= w.actors.Keys
    requires DownsExactly(w, w1, [], a) && DownsExactly(w1, r, [], a)
    ensures DownsExactly(w, r, [], a)
  {
    hide Good, NoLarger;
    KilledSplits(w, w1, r, S);
    assert forall m :: Live(r.actors, m) && m in w1.actors ==> Live(w1.actors, m);
    hide Tame;
  }

  lemma DownsChain(w: World, r: World, t: nat, a: nat)
    requires Good(w) && Vulnerable(w.actors, t) && Fine(Kill(w, t), r)
    requires DownsExactly(Kill(w, t), r, w.actors[t].monitors, t)
    ensures DownsExactly(w, r, [], a)
  {
    hide Good, NoLarger;
    var k := Kill(w, t);
    assert Killed(w, r) == Killed(k, r) + {t} && t !in Killed(k, r);
    hide Evolves;
  }

  /** A victim's own death followed by what its notification does. */
  lemma KillsChain(w: World, r: World, t: nat, S: set<nat>)
    requires Good(w) && Vulnerable(w.actors, t) && t in S && Fine(Kill(w, t), r)
    requires KillsExactly(Kill(w, t), r, w.actors[t].links, S)
    ensures KillsExactly(w, r, [t], S)
  {
    hide Good, NoLarger;
    var k := Kill(w, t);
    assert Killed(w, k) == {t};
    assert Killed(w, r) == Killed(k, r) + {t};
    assert Tame(w, r);
    hide Tame;
    forall y, z | y in Killed(w, r) && z in w.actors[y].links && Vulnerable(w.actors, z) ensures z in Killed(w, r) {
      assert z != t ==> Vulnerable(k.actors, z);
    }
  }

  lemma TellsChain(w: World, r: World, t: nat, a: nat)
    requires Good(w) && Vulnerable(w.actors, t) && Fine(Kill(w, t), r) && !Live(w.actors, a)
    requires TellsExactly(Kill(w, t), r, w.actors[t].links, t)
    ensures TellsExactly(w, r, [t], a)
  {
    hide Good, NoLarger;
    var k := Kill(w, t);
    assert Killed(w, r) == Killed(k, r) + {t} && t !in Killed(k, r);
    hide Evolves;
    forall x, y
      ensures r.sent[Exit(y, x, true)] == w.sent[Exit(y, x, true)] +
                if !Trapping(w.actors, y) then 0
                else (if x in Killed(w, r) then Times(w.actors[x].links, y) else 0)
                     + (if x == a then Times([t], y) else 0)
    {
      assert Trapping(w.actors, y) ==> y != t && Times([t], y) == 0;
      assert Trapping(k.actors, y) == Trapping(w.actors, y);
    }
  }

  lemma {:induction false} ExitSignalExact(w: World, target: nat, a: nat, S: set<nat>)
    requires Setting(w, a, S) && (Vulnerable(w.actors, target) ==> target in S)
    ensures Exact(w, ExitSignal(w, target, a, true), [target], [], a, S)
    decreases Budget(w.sups), |LiveSet(w.actors)|, 0, 0
  {
    hide KillsExactly, TellsExactly, DownsExactly, Good, Evolves, NoLarger, AllGentle, Tame;
    var r := ExitSignal(w, target, a, true);
    if Vulnerable(w.actors, target) {
      var k := Kill(w, target);
      KillFine(w, target);
      VictimSetting(w, target, S);
      NotifyExact(k, target, S);
      assert r == NotifyExit(k, target, true) && k.actors[target].links == w.actors[target].links;
      KillsChain(w, r, target, S);
      TellsChain(w, r, target, a);
      DownsChain(w, r, target, a);
    } else {
      NobodyDies(w, r, target, a, S);
    }
  }

  /** The state in which a victim's notification starts. */
  lemma VictimSetting(w: World, t: nat, S: set<nat>)
    requires Good(w) && Wired(w) && Absorbs(w.actors, S) && AllGentle(w.sups, S) && S <= w.actors.Keys
    requires Vulnerable(w.actors, t) && t in S
    ensures var k := Kill(w, t);
            && Setting(k, t, S) && AllGentle(k.sups, {t})
            && (forall z :: z in k.actors[t].links ==> z < k.nextId)
            && (forall z :: z in k.actors[t].links && Vulnerable(k.actors, z) ==> z in S)
  {
    KillFine(w, t);
    hide Gentle, NoLarger;
  }

  /** An error to a trapping actor is one message, to a dead one nothing. */
  lemma NobodyDies(w: World, r: World, target: nat, a: nat, S: set<nat>)
    requires !Vulnerable(w.actors, target)
    requires r == if Live(w.actors, target) then Send(w, Exit(target, a, true)) else w
    ensures Exact(w, r, [target], [], a, S)
  {
    assert Killed(w, r) == {};
  }

  /** An actor that has just died, whose vulnerable links lie in `S`. */
  lemma {:induction false} NotifyExact(w: World, a: nat, S: set<nat>)
    requires Setting(w, a, S) && a in w.actors && AllGentle(w.sups, {a})
    requires forall z :: z in w.actors[a].links ==> z < w.nextId
    requires forall z :: z in w.actors[a].links && Vulnerable(w.actors, z) ==> z in S
    ensures Exact(w, NotifyExit(w, a, true), w.actors[a].links, w.actors[a].monitors, a, S)
    decreases Budget(w.sups), |LiveSet(w.actors)|, 3, 0
  {
    hide Exact, Setting, Good, Evolves, Tame, AllGentle;
    var w1 := TellSupervisor(w, a, true);
    SupervisorQuiet(w, a);
    SettingKept(w, w1, a, S);
    SeedsKept(w, w1, a, S);
    RestExact(w, w1, a, S);
  }

  /** The part of `actor_notify_exit` after the supervisor. */
  function TellRest(w: World, a: nat, err: bool): (r: World)
    requires Good(w) && a in w.actors && !w.actors[a].alive
    ensures Fine(w, r)
  {
    DetachFine(w, a);
    var w2 := Detach(w, a);
    var w3 := TellMonitors(w2, w.actors[a].monitors, a, err);
    var r := TellLinks(w3, w.actors[a].links, a, err);
    FineTrans(w, w2, w3);
    FineTrans(w, w3, r);
    r
  }

  /** What the monitors and links of `a` do from a state that differs from `w` in what the
  supervisor quietly did. */
  lemma {:induction false} RestExact(w: World, w1: World, a: nat, S: set<nat>)
    requires Quiet(w, w1) && Setting(w1, a, S) && S <= w.actors.Keys
    requires a in w.actors && !Live(w.actors, a) && a in w1.actors && !w1.actors[a].alive
    requires forall z :: z in w.actors[a].links ==> z < w1.nextId
    requires forall z :: z in w.actors[a].links && Vulnerable(w1.actors, z) ==> z in S
    ensures Exact(w, TellRest(w1, a, true), w.actors[a].links, w.actors[a].monitors, a, S)
    decreases Budget(w1.sups), |LiveSet(w1.actors)|, 2, |w.actors[a].links| + 1
  {
    hide KillsExactly, TellsExactly, DownsExactly, Setting, Good, Evolves, Tame;
    var w2 := Detach(w1, a);
    DetachFine(w1, a);
    DetachTame(w1, a);
    SettingKept(w1, w2, a, S);
    var w3 := TellMonitors(w2, w.actors[a].monitors, a, true);
    MonitorsTold(w2, w.actors[a].monitors, a, true);
    SentTame(w2, w3);
    SettingKept(w2, w3, a, S);
    FineTrans(w1, w2, w3);
    assert w1.actors[a] == w.actors[a] && Budget(w3.sups) == Budget(w1.sups);
    SameLive(w1, w3, a);
    SeedsKept(w1, w3, a, S);
    LinksExact(w3, w.actors[a].links, a, S);
    DetachedExact(w, w1, w3, TellLinks(w3, w.actors[a].links, a, true),
                  w.actors[a].links, w.actors[a].monitors, a, S);
  }

  lemma SameLive(w1: World, w3: World, a: nat)
    requires a in w1.actors && !w1.actors[a].alive && w3 == Detach(w1, a).(sent := w3.sent)
    ensures LiveSet(w3.actors) == LiveSet(w1.actors)
  {
  }

  lemma SupervisorQuiet(w: World, a: nat)
    requires Good(w) && a in w.actors && !w.actors[a].alive && AllGentle(w.sups, {a})
    ensures Quiet(w, TellSupervisor(w, a, true)) && Tame(w, TellSupervisor(w, a, true))
    ensures TellSupervisor(w, a, true).actors[a] == w.actors[a]
  {
    var s := FindSup(w.sups, a);
    if s >= 0 {
      GentleExit(w, s, a);
    }
  }

  lemma DetachTame(w: World, a: nat)
    requires a in w.actors
    ensures Tame(w, Detach(w, a))
  {
  }

  lemma SentTame(w: World, r: World)
    requires r == w.(sent := r.sent)
    ensures Tame(w, r)
  {
  }

  lemma SeedsKept(w: World, r: World, a: nat, S: set<nat>)
    requires a in w.actors && Fine(w, r)
    requires forall z :: z in w.actors[a].links ==> z < w.nextId
    requires forall z :: z in w.actors[a].links && Vulnerable(w.actors, z) ==> z in S
    ensures forall z :: z in w.actors[a].links && Vulnerable(r.actors, z) ==> z in S
    ensures forall z :: z in w.actors[a].links ==> z < r.nextId
  {
    hide Good, NoLarger;
  }

  lemma DetachedExact(w: World, w1: World, w3: World, r: World, seeds: seq<nat>, mons: seq<nat>, a: nat, S: set<nat>)
    requires a in w.actors && !Live(w.actors, a) && Quiet(w, w1) && Evolves(w3, r)
    requires w3 == Detach(w1, a).(sent := w3.sent) && S <= w.actors.Keys
    requires forall x, y, e :: w3.sent[Exit(y, x, e)] == w.sent[Exit(y, x, e)]
    requires forall x, m :: w3.sent[Down(m, x, true)] == w.sent[Down(m, x, true)] +
                              if x == a && Live(w1.actors, m) then Times(mons, m) else 0
    requires Exact(w3, r, seeds, [], a, S)
    ensures Exact(w, r, seeds, mons, a, S)
  {
    DetachedSame(w, w1, w3, a);
    RestartedSurvive(w, w3, r, S);
    TameTrans(w, w3, r);
    KilledAlike(w, w3, r, S);
    hide Tame, TellsExactly, DownsExactly;
    DetachedTells(w, w3, r, seeds, a);
    DetachedDowns(w, w1, w3, r, mons, a);
  }

  lemma DetachedTells(w: World, w3: World, r: World, seeds: seq<nat>, a: nat)
    requires forall x, y, e :: w3.sent[Exit(y, x, e)] == w.sent[Exit(y, x, e)]
    requires forall y :: Trapping(w3.actors, y) == Trapping(w.actors, y)
    requires forall y :: Live(w.actors, y) ==> y in w3.actors && w3.actors[y] == w.actors[y]
    requires Killed(w, r) == Killed(w3, r) && TellsExactly(w3, r, seeds, a)
    ensures TellsExactly(w, r, seeds, a)
  {
    hide Trapping, Times;
  }

  lemma DetachedDowns(w: World, w1: World, w3: World, r: World, mons: seq<nat>, a: nat)
    requires forall x, m :: w3.sent[Down(m, x, true)] == w.sent[Down(m, x, true)] +
                              if x == a && Live(w1.actors, m) then Times(mons, m) else 0
    requires forall y :: Live(w.actors, y) ==> y in w3.actors && w3.actors[y] == w.actors[y]
    requires forall y :: y in w.actors ==> y in w3.actors && Live(w3.actors, y) == Live(w1.actors, y)
    requires Evolves(w3, r) && Killed(w, r) == Killed(w3, r) && DownsExactly(w3, r, [], a)
    ensures DownsExactly(w, r, mons, a)
  {
    assert forall m :: m in w.actors && Live(r.actors, m) ==> Live(w3.actors, m);
  }

  /** Everyone who was there is as before when the links are told, but for the lists of `a`. */
  lemma DetachedSame(w: World, w1: World, w3: World, a: nat)
    requires a in w.actors && !Live(w.actors, a) && Quiet(w, w1)
    requires w3 == Detach(w1, a).(sent := w3.sent)
    ensures Tame(w, w3)
    ensures forall y :: y in w.actors ==>
              && y in w3.actors && Live(w3.actors, y) == Live(w.actors, y) == Live(w1.actors, y)
              && (Live(w.actors, y) ==> w3.actors[y] == w.actors[y])
              && Vulnerable(w3.actors, y) == Vulnerable(w.actors, y)
    ensures forall y :: Trapping(w3.actors, y) == Trapping(w.actors, y)
  {
  }

  lemma KilledAlike(w: World, w3: World, r: World, S: set<nat>)
    requires forall y :: y in w.actors ==> y in w3.actors && Live(w3.actors, y) == Live(w.actors, y)
    requires Killed(w3, r) <= S <= w.actors.Keys
    ensures Killed(w, r) == Killed(w3, r)
  {
  }

  lemma ExactCompose(w: World, w1: World, r: World, x: nat, rest: seq<nat>, a: nat, S: set<nat>)
    requires Fine(w, w1) && Fine(w1, r) && S <= w.actors.Keys
    requires Exact(w, w1, [x], [], a, S) && Exact(w1, r, rest, [], a, S)
    ensures Exact(w, r, [x] + rest, [], a, S)
  {
    hide TellsExactly, DownsExactly, Evolves, Good, NoLarger, Tame;
    KillsCompose(w, w1, r, x, rest, S);
    TellsCompose(w, w1, r, x, rest, a, S);
    DownsCompose(w, w1, r, a, S);
  }

  lemma SeedsStay(w: World, w1: World, seeds: seq<nat>, S: set<nat>)
    requires Fine(w, w1)
    requires forall z :: z in seeds ==> z < w.nextId
    requires forall z :: z in seeds && Vulnerable(w.actors, z) ==> z in S
    ensures forall z :: z in seeds && Vulnerable(w1.actors, z) ==> z in S
    ensures forall z :: z in seeds ==> z < w1.nextId
  {
    hide Good, NoLarger;
  }

  lemma {:induction false} LinksExact(w: World, links: seq<nat>, a: nat, S: set<nat>)
    requires Setting(w, a, S) && a in w.actors
    requires forall z :: z in links ==> z < w.nextId
    requires forall z :: z in links && Vulnerable(w.actors, z) ==> z in S
    ensures Exact(w, TellLinks(w, links, a, true), links, [], a, S)
    decreases Budget(w.sups), |LiveSet(w.actors)|, 2, |links|
  {
    hide Exact, Setting, Good, Vulnerable, Tame, Evolves, NoLarger, TellLinks;
    if links == [] {
      NoLinks(w, a, S);
    } else {
      var w1 := TellLink(w, links[0], a, true);
      ExitSignalExact(w, links[0], a, S);
      AfterLink(w, w1, links, a, S);
      LinksExact(w1, links[1..], a, S);
      TellLinksUnfold(w, links, a);
      assert links == [links[0]] + links[1..];
      ExactCompose(w, w1, TellLinks(w1, links[1..], a, true), links[0], links[1..], a, S);
    }
  }

  lemma NoLinks(w: World, a: nat, S: set<nat>)
    requires Good(w)
    ensures Exact(w, w, [], [], a, S) && TellLinks(w, [], a, true) == w
  {
    assert Killed(w, w) == {};
  }

  /** The rest of the links finds the same setting. */
  lemma AfterLink(w: World, w1: World, links: seq<nat>, a: nat, S: set<nat>)
    requires Setting(w, a, S) && a in w.actors && links != [] && Fine(w, w1) && Tame(w, w1)
    requires forall z :: z in links ==> z < w.nextId
    requires forall z :: z in links && Vulnerable(w.actors, z) ==> z in S
    ensures Setting(w1, a, S) && a in w1.actors
    ensures forall z :: z in links[1..] ==> z < w1.nextId
    ensures forall z :: z in links[1..] && Vulnerable(w1.actors, z) ==> z in S
    ensures Budget(w1.sups) < Budget(w.sups)
            || (Budget(w1.sups) == Budget(w.sups) && |LiveSet(w1.actors)| <= |LiveSet(w.actors)|)
  {
    hide Setting, Vulnerable, Good;
    SettingKept(w, w1, a, S);
    SeedsStay(w, w1, links, S);
    assert forall z :: z in links[1..] ==> z in links;
  }

  lemma TellLinksUnfold(w: World, links: seq<nat>, a: nat)
    requires Good(w) && links != []
    ensures var w1 := TellLink(w, links[0], a, true);
            && Fine(w, w1) && Fine(w1, TellLinks(w1, links[1..], a, true))
            && TellLinks(w, links, a, true) == TellLinks(w1, links[1..], a, true)
            && TellLink(w, links[0], a, true) == ExitSignal(w, links[0], a, true)
  {
    hide Good, Evolves, NoLarger;
  }

  // ----- reachability -----

  /** `path` leads along links from `a` through vulnerable actors only. */
  ghost predicate ErrorPath(actors: map<nat, Actor>, a: nat, path: seq<nat>)
    requires a in actors
  {
    && path != [] && path[0] in actors[a].links
    && (forall i :: 0 <= i < |path| ==> Vulnerable(actors, path[i]))
    && (forall i :: 0 < i < |path| ==> path[i] in actors[path[i - 1]].links)
  }

  ghost predicate Reached(actors: map<nat, Actor>, a: nat, y: nat)
    requires a in actors
  {
    exists path :: ErrorPath(actors, a, path) && path[|path| - 1] == y
  }

  /** The live non-trapping actors reachable from `a` along live non-trapping actors. */
  ghost function ReachSet(actors: map<nat, Actor>, a: nat): (r: set<nat>)
    requires a in actors
  {
    set y | y in actors && Reached(actors, a, y)
  }

  lemma ReachSetAbsorbs(actors: map<nat, Actor>, a: nat)
    requires a in actors
    ensures Absorbs(actors, ReachSet(actors, a))
    ensures forall z :: z in actors[a].links && Vulnerable(actors, z) ==> z in ReachSet(actors, a)
    ensures forall z :: z in ReachSet(actors, a) ==> Vulnerable(actors, z)
  {
    forall y, z | y in ReachSet(actors, a) && Live(actors, y) && z in actors[y].links && Vulnerable(actors, z)
      ensures z in ReachSet(actors, a)
    {
      var path :| ErrorPath(actors, a, path) && path[|path| - 1] == y;
      assert ErrorPath(actors, a, path + [z]);
      assert (path + [z])[|path|] == z;
    }
    forall z | z in actors[a].links && Vulnerable(actors, z) ensures z in ReachSet(actors, a) {
      assert ErrorPath(actors, a, [z]) && [z][|[z]| - 1] == z;
    }
  }

  /** A set that holds the vulnerable links of `a` and of its members holds every path. */
  lemma {:induction false} PathStaysInside(actors: map<nat, Actor>, a: nat, path: seq<nat>, K: set<nat>)
    requires a in actors && ErrorPath(actors, a, path)
    requires forall z :: z in actors[a].links && Vulnerable(actors, z) ==> z in K
    requires forall y, z :: y in K && y in actors && z in actors[y].links && Vulnerable(actors, z) ==> z in K
    ensures path[|path| - 1] in K
    decreases |path|
  {
    if |path| > 1 {
      var shorter := path[..|path| - 1];
      assert forall i :: 0 <= i < |shorter| ==> shorter[i] == path[i];
      PathStaysInside(actors, a, shorter, K);
      assert path[|path| - 1] in actors[path[|path| - 2]].links;
    }
  }

  lemma KilledIsReachSet(w: World, r: World, a: nat)
    requires a in w.actors && Exact(w, r, w.actors[a].links, w.actors[a].monitors, a, ReachSet(w.actors, a))
    ensures Killed(w, r) == ReachSet(w.actors, a)
  {
    hide TellsExactly, DownsExactly;
    forall y | y in ReachSet(w.actors, a) ensures y in Killed(w, r) {
      var path :| ErrorPath(w.actors, a, path) && path[|path| - 1] == y;
      PathStaysInside(w.actors, a, path, Killed(w, r));
    }
  }

  function Links(actors: map<nat, Actor>, x: nat, y: nat): (n: nat) {
    if x in actors then Times(actors[x].links, y) else 0
  }

  function Registrations(actors: map<nat, Actor>, x: nat, m: nat): (n: nat) {
    if x in actors then Times(actors[x].monitors, m) else 0
  }

  /** After `a` has died of an error: of the actors there were, exactly those of `dead` died
  with it, each once; every trapping actor survives and got one :EXIT per link from a dead
  one, every surviving monitor one :DOWN per registration; all others are restarted
  children. */
  ghost predicate Aftermath(w: World, r: World, a: nat, dead: set<nat>)
    requires a in w.actors
  {
    && dead <= LiveSet(w.actors)
    && (forall y :: y in w.actors ==> y in r.actors && (Live(r.actors, y) <==> Live(w.actors, y) && y !in dead))
    && (forall n :: n in r.actors && n !in w.actors ==> r.actors[n] == RESTARTED)
    && w.deaths <= r.deaths && (forall y :: y in r.deaths[|w.deaths|..] <==> y in dead)
    && (forall x, y :: Trapping(w.actors, y) ==>
          && Trapping(r.actors, y)
          && r.sent[Exit(y, x, true)] == w.sent[Exit(y, x, true)]
               + if x in dead || x == a then Links(w.actors, x, y) else 0)
    && (forall x, m :: m in w.actors && Live(r.actors, m) ==>
          r.sent[Down(m, x, true)] == w.sent[Down(m, x, true)]
            + if x in dead || x == a then Registrations(w.actors, x, m) else 0)
  }

  /** The exit of an actor with an error, where neither it nor anyone it reaches has a
  supervisor that would restart a group: the dead are exactly the live non-trapping actors
  reachable through links along live non-trapping actors. */
  lemma ErrorKillsExactlyTheReachable(w: World, a: nat)
    requires Good(w) && Wired(w) && a in w.actors && !w.actors[a].alive
    requires forall z :: z in w.actors[a].links ==> z < w.nextId
    requires AllGentle(w.sups, ReachSet(w.actors, a) + {a})
    ensures Aftermath(w, NotifyExit(w, a, true), a, ReachSet(w.actors, a))
  {
    ReachSetAbsorbs(w.actors, a);
    var dead := ReachSet(w.actors, a);
    hide ReachSet;
    assert AllGentle(w.sups, dead) && AllGentle(w.sups, {a});
    hide AllGentle;
    NotifyExact(w, a, dead);
    var r := NotifyExit(w, a, true);
    assert Fine(w, r);
    hide NotifyExit;
    assert dead == ReachSet(w.actors, a);
    hide Good, Evolves, NoLarger, Absorbs, Exact, Aftermath;
    KilledIsReachSet(w, r, a);
    FromExact(w, r, a, dead);
  }

  lemma FromExact(w: World, r: World, a: nat, dead: set<nat>)
    requires a in w.actors && !w.actors[a].alive && Good(w) && Fine(w, r)
    requires Exact(w, r, w.actors[a].links, w.actors[a].monitors, a, dead) && Killed(w, r) == dead
    requires forall z :: z in dead ==> Vulnerable(w.actors, z)
    ensures Aftermath(w, r, a, dead)
  {
    hide TellsExactly, DownsExactly, Good, NoLarger;
    DiedExactly(w, r);
    TrappersSurvive(w, r, dead);
    assert forall y :: Live(w.actors, y) <==> y in LiveSet(w.actors);
    assert forall y :: Live(r.actors, y) <==> y in LiveSet(r.actors);
    Told(w, r, a, dead);
  }

  lemma TrappersSurvive(w: World, r: World, dead: set<nat>)
    requires Killed(w, r) == dead && forall z :: z in dead ==> Vulnerable(w.actors, z)
    requires Evolves(w, r)
    ensures forall y :: Trapping(w.actors, y) ==> Trapping(r.actors, y)
  {
    forall y | Trapping(w.actors, y) ensures Trapping(r.actors, y) {
      assert y in LiveSet(w.actors) && y !in dead;
      assert y in LiveSet(r.actors);
    }
  }

  lemma Told(w: World, r: World, a: nat, dead: set<nat>)
    requires a in w.actors && a !in dead && Killed(w, r) == dead && dead <= LiveSet(w.actors)
    requires TellsExactly(w, r, w.actors[a].links, a) && DownsExactly(w, r, w.actors[a].monitors, a)
    ensures forall x, y :: Trapping(w.actors, y) ==>
              r.sent[Exit(y, x, true)] == w.sent[Exit(y, x, true)]
                + if x in dead || x == a then Links(w.actors, x, y) else 0
    ensures forall x, m :: m in w.actors && Live(r.actors, m) ==>
              r.sent[Down(m, x, true)] == w.sent[Down(m, x, true)]
                + if x in dead || x == a then Registrations(w.actors, x, m) else 0
  {
    hide Times, Killed, Trapping;
  }

  /** The new deaths are the actors that were alive before and are not any more. */
  lemma DiedExactly(w: World, r: World)
    requires Good(w) && Fine(w, r) && Tame(w, r)
    requires forall n :: n in r.actors && n !in w.actors ==> Live(r.actors, n)
    ensures forall y :: y in r.deaths[|w.deaths|..] <==> y in Killed(w, r)
  {
    var added := r.deaths[|w.deaths|..];
    forall y | y in added ensures y in Killed(w, r) {
      var i :| |w.deaths| <= i < |r.deaths| && r.deaths[i] == y;
      assert y !in w.deaths;
    }
    forall y | y in Killed(w, r) ensures y in added {
      assert y in LiveSet(w.actors) && y !in LiveSet(r.actors);
      assert y in r.deaths && y !in w.deaths;
      var i :| 0 <= i < |r.deaths| && r.deaths[i] == y;
      assert r.deaths[i] == added[i - |w.deaths|];
    }
  }

  // ----- supervisors that restart a group -----

  /** The ids of a child list from slot `i` on, but for slot `skip`. */
  function From(ids: seq<nat>, i: nat, skip: int): (r: set<nat>)
    ensures forall y :: y in r <==> exists j :: i <= j < |ids| && j != skip && ids[j] == y
    decreases |ids| - i
  {
    if i >= |ids| then {} else From(ids, i + 1, skip) + if i == skip then {} else {ids[i]}
  }

  /** A static supervisor that shuts down other children when the one in slot `i` dies. */
  predicate RestartsGroup(sup: Supervisor) {
    !sup.isDynamic && !sup.strategy.OneForOne? && sup.restartCount < SUP_MAX_RESTARTS
  }

  /** The children that go down with the one in slot `i`. */
  function Group(sup: Supervisor, i: nat): (r: set<nat>) {
    match sup.strategy
    case OneForOne => {}
    case OneForAll => From(sup.childIds, 0, i)
    case RestForOne => From(sup.childIds, i + 1, -1)
  }

  /** The live actors that a group takes with it; nobody else notices. */
  ghost predicate GroupGone(w: World, r: World, group: set<nat>) {
    && Killed(w, r) == LiveSet(w.actors) * group
    && (forall y :: y in w.actors ==> y in r.actors && (y !in Killed(w, r) ==> r.actors[y] == w.actors[y]))
  }

  lemma StaticUntouched(w: World, a: nat, s: nat)
    requires Good(w) && a in w.actors && !w.actors[a].alive && s < |w.sups| && !w.sups[s].isDynamic
    ensures var r := NotifyExit(w, a, false); |r.sups| == |w.sups| && r.sups[s] == w.sups[s]
  {
    OnlySupsChange(w, a);
    var w1 := TellSupervisor(w, a, false);
    assert |w1.sups| == |w.sups| && w1.sups[s] == w.sups[s];
    DetachFine(w1, a);
    hide TellSupervisor, Good, Evolves, NoLarger;
    var w3 := TellMonitors(Detach(w1, a), w1.actors[a].monitors, a, false);
    NormalLinks(w3, w1.actors[a].links, a);
  }

  /** The kill loop of a static supervisor shuts down exactly the live children from its
  start on. */
  ghost predicate ShutDown(w: World, r: World, s: nat, i: nat, skip: int)
    requires s < |w.sups|
  {
    && |r.sups| == |w.sups| && r.sups[s] == w.sups[s] && r.actors.Keys == w.actors.Keys
    && GroupGone(w, r, From(w.sups[s].childIds, i, skip))
  }

  lemma {:induction false} ShutdownExact(w: World, s: nat, i: nat, skip: int)
    requires Good(w) && s < |w.sups| && !w.sups[s].isDynamic
    ensures ShutDown(w, Shutdown(w, s, i, skip), s, i, skip)
    decreases Budget(w.sups), |LiveSet(w.actors)|, if i < |w.sups[s].childIds| then |w.sups[s].childIds| - i else 0
  {
    hide Good, Evolves, NoLarger, NotifyExit, GroupGone, From;
    var ids := w.sups[s].childIds;
    if i >= |ids| {
      NobodyGone(w, ids, i, skip);
    } else if i == skip || !Live(w.actors, ids[i]) {
      ShutdownExact(w, s, i + 1, skip);
      SlotPassedOver(w, Shutdown(w, s, i + 1, skip), ids, i, skip);
    } else {
      KillFine(w, ids[i]);
      ChildShut(w, s, ids[i]);
      var w1 := NotifyExit(Kill(w, ids[i]), ids[i], false);
      ShutdownExact(w1, s, i + 1, skip);
      OneMoreGone(w, Kill(w, ids[i]), w1, Shutdown(w1, s, i + 1, skip), ids[i], From(ids, i + 1, skip));
      FromHead(ids, i, skip);
    }
  }

  lemma NobodyGone(w: World, ids: seq<nat>, i: nat, skip: int)
    requires i >= |ids|
    ensures GroupGone(w, w, From(ids, i, skip))
  {
    assert Killed(w, w) == {};
  }

  lemma SlotPassedOver(w: World, r: World, ids: seq<nat>, i: nat, skip: int)
    requires i < |ids| && (i == skip || !Live(w.actors, ids[i]))
    requires GroupGone(w, r, From(ids, i + 1, skip))
    ensures GroupGone(w, r, From(ids, i, skip))
  {
    assert LiveSet(w.actors) * From(ids, i, skip) == LiveSet(w.actors) * From(ids, i + 1, skip);
  }

  lemma FromHead(ids: seq<nat>, i: nat, skip: int)
    requires i < |ids| && i != skip
    ensures From(ids, i, skip) == From(ids, i + 1, skip) + {ids[i]}
  {
  }

  /** One child is shut down and its exit told. */
  lemma ChildShut(w: World, s: nat, child: nat)
    requires Good(w) && s < |w.sups| && !w.sups[s].isDynamic && Live(w.actors, child) && Good(Kill(w, child))
    ensures var k := Kill(w, child);
            var w1 := NotifyExit(k, child, false);
            && LiveSet(w1.actors) == LiveSet(k.actors) && w1.actors == Detach(k, child).actors
            && |w1.sups| == |w.sups| && w1.sups[s] == w.sups[s]
            && Budget(w1.sups) <= Budget(w.sups) && |LiveSet(w1.actors)| < |LiveSet(w.actors)|
  {
    hide Good, Evolves, NotifyExit;
    var k := Kill(w, child);
    KillFine(w, child);
    NormalExitKillsNobody(k, child);
    StaticUntouched(k, child, s);
  }

  lemma OneMoreGone(w: World, k: World, w1: World, r: World, child: nat, rest: set<nat>)
    requires Live(w.actors, child) && k == Kill(w, child)
    requires LiveSet(w1.actors) == LiveSet(k.actors) && w1.actors == Detach(k, child).actors
    requires GroupGone(w1, r, rest) && r.actors.Keys == w1.actors.Keys
    ensures GroupGone(w, r, rest + {child})
  {
    assert LiveSet(k.actors) == LiveSet(w.actors) - {child};
    assert Killed(w, r) == Killed(w1, r) + {child};
  }

  /** Respawning adds actors and leaves everybody else alone. */
  lemma {:induction false} RespawnAdds(w: World, s: nat, i: nat)
    requires Good(w) && s < |w.sups|
    ensures forall y :: y in w.actors ==> y in Respawn(w, s, i).actors && Respawn(w, s, i).actors[y] == w.actors[y]
    ensures OnlyRestarted(w, Respawn(w, s, i))
    decreases |w.sups[s].childIds| - i
  {
    if i < |w.sups[s].childIds| {
      SpawnFine(w, s, i);
      RespawnAdds(Spawn(w, s, i), s, i + 1);
    }
  }

  /** When a child of a group supervisor dies of an error, exactly its live siblings in the
  group go down with it, without an error. */
  lemma GroupRestartExact(w: World, s: nat, dead: nat)
    requires Good(w) && s < |w.sups| && RestartsGroup(w.sups[s]) && dead in w.sups[s].childIds
    ensures GroupGone(w, HandleExit(w, s, dead), Group(w.sups[s], ChildIndex(w.sups[s].childIds, dead)))
    ensures OnlyRestarted(w, HandleExit(w, s, dead))
  {
    hide Good, Evolves, NoLarger, GroupGone, Shutdown, Respawn, Budget, From, HandleExit, OnlyRestarted;
    var sup := w.sups[s];
    var i := ChildIndex(sup.childIds, dead);
    var w1 := CountRestart(w, s);
    GroupRestartUnfold(w, s, dead);
    var start, skip := if sup.strategy.OneForAll? then 0 else i + 1, if sup.strategy.OneForAll? then i else -1;
    ShutdownExact(w1, s, start, skip);
    var w2 := Shutdown(w1, s, start, skip);
    RespawnAdds(w2, s, if sup.strategy.OneForAll? then 0 else i);
    GroupThenSpawn(w, w1, w2, HandleExit(w, s, dead), Group(sup, i));
  }

  function CountRestart(w: World, s: nat): (r: World)
    requires s < |w.sups|
  {
    SetSup(w, s, w.sups[s].(restartCount := w.sups[s].restartCount + 1))
  }

  /** Every actor of `r` that `w` lacks is a restarted child that nobody links to. */
  ghost predicate OnlyRestarted(w: World, r: World) {
    forall n :: n in r.actors && n !in w.actors ==> r.actors[n] == RESTARTED
  }

  lemma GroupRestartUnfold(w: World, s: nat, dead: nat)
    requires Good(w) && s < |w.sups| && RestartsGroup(w.sups[s]) && dead in w.sups[s].childIds
    ensures Good(CountRestart(w, s))
    ensures var w1, i := CountRestart(w, s), ChildIndex(w.sups[s].childIds, dead);
            && Group(w1.sups[s], i) == Group(w.sups[s], i) && w1.sups[s].childIds == w.sups[s].childIds
            && var w2 := if w.sups[s].strategy.OneForAll? then Shutdown(w1, s, 0, i) else Shutdown(w1, s, i + 1, -1);
            HandleExit(w, s, dead) == Respawn(w2, s, if w.sups[s].strategy.OneForAll? then 0 else i)
  {
    hide Good, Evolves, NoLarger, Shutdown, Respawn, Budget, From;
    RestartCounted(w, s);
  }

  lemma RestartCounted(w: World, s: nat)
    requires Good(w) && s < |w.sups| && w.sups[s].restartCount < SUP_MAX_RESTARTS
    ensures Good(CountRestart(w, s))
  {
    SetSupFine(w, s, w.sups[s].(restartCount := w.sups[s].restartCount + 1));
  }

  lemma GroupThenSpawn(w: World, w1: World, w2: World, r: World, group: set<nat>)
    requires w1.actors == w.actors && GroupGone(w1, w2, group) && w2.actors.Keys == w1.actors.Keys
    requires forall y :: y in w2.actors ==> y in r.actors && r.actors[y] == w2.actors[y]
    requires OnlyRestarted(w2, r)
    ensures GroupGone(w, r, group) && OnlyRestarted(w, r)
  {
    assert Killed(w, r) == Killed(w1, w2);
  }

  /** The exit with an error of a child of a group supervisor: first exactly its live
  siblings in the group, then exactly those whom links reach without passing them.  The
  dead are thus the reachable ones only where the group adds none and cuts off none. */
  lemma GroupThenReach(w: World, a: nat)
    requires Good(w) && Wired(w) && a in w.actors && !w.actors[a].alive
    requires forall z :: z in w.actors[a].links ==> z < w.nextId
    requires FindSup(w.sups, a) >= 0 && RestartsGroup(w.sups[FindSup(w.sups, a)])
    requires var w1 := TellSupervisor(w, a, true);
             a in w1.actors && AllGentle(w1.sups, ReachSet(w1.actors, a))
    ensures var sup, w1 := w.sups[FindSup(w.sups, a)], TellSupervisor(w, a, true);
            var group := Group(sup, ChildIndex(sup.childIds, a));
            && GroupGone(w, w1, group)
            && Killed(w, NotifyExit(w, a, true)) == LiveSet(w.actors) * group + ReachSet(w1.actors, a) * w.actors.Keys
  {
    hide Good, Evolves, NoLarger, GroupGone, ReachSet, Group, AllGentle, Tame, Exact, Setting;
    var s := FindSup(w.sups, a);
    var w1 := TellSupervisor(w, a, true);
    hide OnlyRestarted;
    GroupRestartExact(w, s, a);
    var group := Group(w.sups[s], ChildIndex(w.sups[s].childIds, a));
    AfterGroup(w, w1, a, group);
    ReachSetAbsorbs(w1.actors, a);
    NothingQuiet(w1);
    ReachSetting(w1, a);
    RestExact(w1, w1, a, ReachSet(w1.actors, a));
    KilledIsReachSet(w1, NotifyExit(w, a, true), a);
    GroupPlusReach(w, w1, NotifyExit(w, a, true), group, ReachSet(w1.actors, a));
  }

  /** The dead actor and the links are as before the group went. */
  lemma AfterGroup(w: World, w1: World, a: nat, group: set<nat>)
    requires Good(w) && Fine(w, w1) && Wired(w) && a in w.actors && !w.actors[a].alive && GroupGone(w, w1, group)
    requires forall z :: z in w.actors[a].links ==> z < w.nextId
    requires OnlyRestarted(w, w1)
    ensures Wired(w1) && a in w1.actors && w1.actors[a] == w.actors[a]
    ensures forall z :: z in w1.actors[a].links ==> z < w1.nextId
  {
    hide Good, NoLarger;
  }

  lemma ReachSetting(w: World, a: nat)
    requires Good(w) && Wired(w) && a in w.actors && !w.actors[a].alive
    requires AllGentle(w.sups, ReachSet(w.actors, a))
    ensures Setting(w, a, ReachSet(w.actors, a))
    ensures forall z :: z in w.actors[a].links && Vulnerable(w.actors, z) ==> z in ReachSet(w.actors, a)
  {
    ReachSetAbsorbs(w.actors, a);
    assert ReachSet(w.actors, a) <= w.actors.Keys;
    hide ReachSet, AllGentle;
  }

  lemma GroupPlusReach(w: World, w1: World, r: World, group: set<nat>, reach: set<nat>)
    requires Fine(w, w1) && Fine(w1, r) && GroupGone(w, w1, group) && Killed(w1, r) == reach
    ensures Killed(w, r) == LiveSet(w.actors) * group + reach * w.actors.Keys
  {
    hide Good, NoLarger;
    forall y ensures y in Killed(w, r) <==> y in LiveSet(w.actors) * group + reach * w.actors.Keys {
      assert y in w.actors && Live(w1.actors, y) ==> Live(w.actors, y);
      assert Live(r.actors, y) && y in w1.actors ==> Live(w1.actors, y);
    }
  }

  /** Whatever the links and the other supervisors are, a live sibling in the group of an
  actor that dies of an error does not survive, reached by links or not. */
  lemma SiblingDies(w: World, a: nat, y: nat)
    requires Good(w) && a in w.actors && !w.actors[a].alive && Live(w.actors, y)
    requires FindSup(w.sups, a) >= 0 && RestartsGroup(w.sups[FindSup(w.sups, a)])
    requires var sup := w.sups[FindSup(w.sups, a)]; y in Group(sup, ChildIndex(sup.childIds, a))
    ensures !Live(NotifyExit(w, a, true).actors, y)
  {
    hide Good, NoLarger, Group, HandleExit;
    var s := FindSup(w.sups, a);
    var w1 := TellSupervisor(w, a, true);
    GroupRestartExact(w, s, a);
    assert w1 == HandleExit(w, s, a);
    assert y in Killed(w, w1);
    assert !Live(w1.actors, y) && y in w1.actors;
    assert Evolves(w1, NotifyExit(w, a, true)) by { RestEvolves(w, a); }
  }

  lemma RestEvolves(w: World, a: nat)
    requires Good(w) && a in w.actors && !w.actors[a].alive
    ensures Fine(TellSupervisor(w, a, true), NotifyExit(w, a, true))
  {
    var w1 := TellSupervisor(w, a, true);
    assert a in w1.actors && !w1.actors[a].alive;
    hide Good, Evolves, NoLarger, TellSupervisor;
    assert NotifyExit(w, a, true) == TellRest(w1, a, true);
  }

  /** Actor 1 has died of an error; it is linked to 2, and 2 and 3 are the children of a
  one-for-all supervisor. */
  function SiblingWorld(): (w: World) {
    World(map[1 := Actor(false, false, [2], []), 2 := Actor(true, false, [], []), 3 := Actor(true, false, [], [])],
          4, 2, [Supervisor(OneForAll, [2, 3], [Permanent, Permanent], 0, false)], multiset{}, [1])
  }

  /** An actor that nobody is linked to dies with the exit of an unsupervised one. */
  lemma DeathBeyondTheLinks()
    ensures var w := SiblingWorld();
            && Good(w) && Wired(w) && FindSup(w.sups, 1) < 0 && Live(w.actors, 3)
            && 3 !in ReachSet(w.actors, 1) && !Live(NotifyExit(w, 1, true).actors, 3)
  {
    hide Good, Evolves, NoLarger, ReachSet, Group, NotifyExit, ErrorPath, Reached, LiveSet, Budget;
    SiblingWorldGood();
    SiblingNotReached();
    var w := SiblingWorld();
    UnsupervisedLink(w, 1, 2);
    SiblingShut(Kill(Detach(w, 1), 2));
  }

  lemma SiblingShut(k: World)
    requires Good(k) && Live(k.actors, 3) && 2 in k.actors && !k.actors[2].alive && k.sups == SiblingWorld().sups
    ensures !Live(NotifyExit(k, 2, true).actors, 3)
  {
    hide Good, Evolves, NoLarger, Group, NotifyExit;
    SiblingGroup();
    assert FindSup(k.sups, 2) == 0;
    SiblingDies(k, 2, 3);
  }

  lemma SiblingNotReached()
    ensures 3 !in ReachSet(SiblingWorld().actors, 1)
  {
    var w := SiblingWorld();
    forall path | ErrorPath(w.actors, 1, path) ensures path[|path| - 1] in {2} {
      PathStaysInside(w.actors, 1, path, {2});
    }
  }

  lemma SiblingWorldGood()
    ensures Good(SiblingWorld())
  {
    assert LiveSet(SiblingWorld().actors) == {2, 3};
  }

  lemma SiblingGroup()
    ensures 3 in Group(SiblingWorld().sups[0], ChildIndex(SiblingWorld().sups[0].childIds, 2))
  {
    var ids := SiblingWorld().sups[0].childIds;
    assert ids[0] == 2 && ids[1] == 3;
  }

  /** An unsupervised, unmonitored dead actor with one link passes its error to that link. */
  lemma UnsupervisedLink(w: World, a: nat, y: nat)
    requires Good(w) && a in w.actors && w.actors[a] == Actor(false, false, [y], [])
    requires FindSup(w.sups, a) < 0 && Vulnerable(w.actors, y)
    ensures Good(Kill(Detach(w, a), y))
    ensures NotifyExit(w, a, true) == NotifyExit(Kill(Detach(w, a), y), y, true)
  {
    DetachFine(w, a);
    KillFine(Detach(w, a), y);
    hide Good, Evolves, NoLarger, TellSupervisor;
    assert TellSupervisor(w, a, true) == w by { UnsupervisedQuiet(w, a); }
    var w2 := Detach(w, a);
    assert TellMonitors(w2, [], a, true) == w2;
    OneLink(w2, y, a);
  }

  lemma UnsupervisedQuiet(w: World, a: nat)
    requires Good(w) && a in w.actors && !w.actors[a].alive && FindSup(w.sups, a) < 0
    ensures TellSupervisor(w, a, true) == w
  {
  }

  lemma OneLink(w: World, y: nat, a: nat)
    requires Good(w) && Vulnerable(w.actors, y) && Good(Kill(w, y))
    ensures TellLinks(w, [y], a, true) == NotifyExit(Kill(w, y), y, true)
  {
    hide Good, Evolves, NoLarger, NotifyExit;
    TellLinksUnfold(w, [y], a);
    var w1 := TellLink(w, y, a, true);
    assert [y][1..] == [];
    assert TellLinks(w1, [], a, true) == w1;
    assert ExitSignal(w, y, a, true) == NotifyExit(Kill(w, y), y, true);
  }
}
