/** How far the exit of one actor can reach at all, whatever the supervisors
(bootstrap/actor.c:350-688).

A death without an error kills nobody in turn, so the dead are among the actors that links
reach and the siblings that a group restart takes with one of those. */
module ExitSpread {
  import opened ActorExit
  import opened ExitReach

  /** A supervisor that restarts a group takes `z` with it when `x` dies of an error. */
  ghost predicate Takes(sup: Supervisor, x: nat, z: nat) {
    RestartsGroup(sup) && exists i, j :: Slots(sup, x, z, i, j)
  }

  ghost predicate Slots(sup: Supervisor, x: nat, z: nat, i: nat, j: nat) {
    && i < |sup.childIds| && j < |sup.childIds| && sup.childIds[i] == x && sup.childIds[j] == z
    && if sup.strategy.OneForAll? then i != j else i < j
  }

  lemma GroupIsTaken(sup: Supervisor, x: nat, z: nat)
    requires RestartsGroup(sup) && x in sup.childIds && z in Group(sup, ChildIndex(sup.childIds, x))
    ensures Takes(sup, x, z)
  {
    var i := ChildIndex(sup.childIds, x);
    if sup.strategy.OneForAll? {
      var j :| 0 <= j < |sup.childIds| && j != i && sup.childIds[j] == z;
      assert Slots(sup, x, z, i, j);
    } else {
      var j :| i + 1 <= j < |sup.childIds| && sup.childIds[j] == z;
      assert Slots(sup, x, z, i, j);
    }
  }

  // ----- what every part of a cascade keeps -----

  /** Child slots change only to new ids. */
  ghost predicate SlotsKept(p: Supervisor, q: Supervisor, nextId: nat) {
    && q.strategy == p.strategy && q.isDynamic == p.isDynamic && q.restartCount >= p.restartCount
    && (p.isDynamic || (|q.childIds| == |p.childIds|
        && forall j :: 0 <= j < |p.childIds| ==> q.childIds[j] == p.childIds[j] || q.childIds[j] >= nextId))
  }

  /** No link is made, and new actors have none. */
  ghost predicate Mild(w: World, r: World)
    ensures Mild(w, r) ==> w.nextId <= r.nextId
  {
    && |r.sups| == |w.sups| && w.nextId <= r.nextId
    && (forall y :: y in w.actors ==>
          y in r.actors && (r.actors[y].links == w.actors[y].links || r.actors[y].links == []))
    && (forall s :: 0 <= s < |w.sups| ==> SlotsKept(w.sups[s], r.sups[s], w.nextId))
    && (forall n :: n in r.actors && n !in w.actors ==> n >= w.nextId && r.actors[n].links == [])
  }

  lemma MildTrans(w: World, w1: World, r: World)
    requires Mild(w, w1) && Mild(w1, r)
    ensures Mild(w, r)
  {
    forall s | 0 <= s < |w.sups| ensures SlotsKept(w.sups[s], r.sups[s], w.nextId) {
      assert SlotsKept(w.sups[s], w1.sups[s], w.nextId) && SlotsKept(w1.sups[s], r.sups[s], w1.nextId);
    }
  }

  lemma SameMild(w: World, r: World)
    requires r.sups == w.sups && r.nextId == w.nextId && r.actors.Keys == w.actors.Keys
    requires forall y :: y in w.actors ==> r.actors[y].links == w.actors[y].links || r.actors[y].links == []
    ensures Mild(w, r)
  {
  }

  lemma SpawnMild(w: World, s: nat, i: nat)
    requires Good(w) && s < |w.sups|
    ensures Mild(w, Spawn(w, s, i))
  {
  }

  lemma RemovalMild(w: World, s: nat, i: nat)
    requires s < |w.sups| && i < |w.sups[s].childIds| == |w.sups[s].childRestart| && w.sups[s].isDynamic
    ensures Mild(w, RemoveChild(w, s, i))
  {
  }

  lemma CountMild(w: World, s: nat)
    requires s < |w.sups|
    ensures Mild(w, CountRestart(w, s))
  {
  }

  /** An exit without an error. */
  lemma NormalExitMild(w: World, a: nat)
    requires Good(w) && a in w.actors && !w.actors[a].alive
    ensures Mild(w, NotifyExit(w, a, false))
  {
    hide TellSupervisor, Good, Evolves, NoLarger, Mild, TellRest;
    var w1 := TellSupervisor(w, a, false);
    StaysDead(w, w1, a);
    NormalSupervisorMild(w, a);
    NormalRest(w1, a);
    RestOfNotify(w, a);
    SameMild(w1, NotifyExit(w, a, false));
    MildTrans(w, w1, NotifyExit(w, a, false));
  }

  lemma NormalRest(w: World, a: nat)
    requires Good(w) && a in w.actors && !w.actors[a].alive
    ensures TellRest(w, a, false) == Detach(w, a).(sent := TellRest(w, a, false).sent)
  {
    hide Good, Evolves, NoLarger;
    DetachFine(w, a);
    NormalLinks(TellMonitors(Detach(w, a), w.actors[a].monitors, a, false), w.actors[a].links, a);
  }

  lemma RestOfNotify(w: World, a: nat)
    requires Good(w) && a in w.actors && !w.actors[a].alive
    requires var w1 := TellSupervisor(w, a, false); Good(w1) && a in w1.actors && !w1.actors[a].alive
    ensures NotifyExit(w, a, false) == TellRest(TellSupervisor(w, a, false), a, false)
  {
    hide Good, Evolves, NoLarger, TellSupervisor;
  }

  lemma NormalSupervisorMild(w: World, a: nat)
    requires Good(w) && a in w.actors && !w.actors[a].alive
    ensures Mild(w, TellSupervisor(w, a, false))
  {
    var s := FindSup(w.sups, a);
    if s >= 0 && w.sups[s].isDynamic {
      var i := ChildIndex(w.sups[s].childIds, a);
      hide Mild, RemoveChild;
      RemovalMild(w, s, i);
      SameMild(w, w);
    } else {
      SameMild(w, w);
    }
  }

  lemma KillMild(w: World, a: nat)
    requires Live(w.actors, a)
    ensures Mild(w, Kill(w, a))
  {
  }

  lemma {:induction false} ShutdownMild(w: World, s: nat, i: nat, skip: int)
    requires Good(w) && s < |w.sups| && !w.sups[s].isDynamic
    ensures Mild(w, Shutdown(w, s, i, skip))
    decreases Budget(w.sups), |LiveSet(w.actors)|, if i < |w.sups[s].childIds| then |w.sups[s].childIds| - i else 0
  {
    hide Good, Evolves, NoLarger, NotifyExit, Mild;
    var ids := w.sups[s].childIds;
    if i >= |ids| {
      SameMild(w, w);
    } else if i == skip || !Live(w.actors, ids[i]) {
      ShutdownMild(w, s, i + 1, skip);
    } else {
      var k := Kill(w, ids[i]);
      KillFine(w, ids[i]);
      ChildShut(w, s, ids[i]);
      var w1 := NotifyExit(k, ids[i], false);
      KillMild(w, ids[i]);
      NormalExitMild(k, ids[i]);
      MildTrans(w, k, w1);
      ShutdownMild(w1, s, i + 1, skip);
      MildTrans(w, w1, Shutdown(w1, s, i + 1, skip));
    }
  }

  lemma {:induction false} RespawnMild(w: World, s: nat, i: nat)
    requires Good(w) && s < |w.sups|
    ensures Mild(w, Respawn(w, s, i))
    decreases |w.sups[s].childIds| - i
  {
    hide Mild, Evolves, Spawn;
    if i < |w.sups[s].childIds| {
      SpawnFine(w, s, i);
      SpawnMild(w, s, i);
      RespawnMild(Spawn(w, s, i), s, i + 1);
      MildTrans(w, Spawn(w, s, i), Respawn(Spawn(w, s, i), s, i + 1));
    } else {
      SameMild(w, w);
    }
  }

  lemma GroupMild(w: World, s: nat, dead: nat)
    requires Good(w) && s < |w.sups| && RestartsGroup(w.sups[s]) && dead in w.sups[s].childIds
    ensures Mild(w, HandleExit(w, s, dead))
  {
    hide Good, Evolves, NoLarger, Shutdown, Respawn, Budget, HandleExit, Mild, Group;
    var i := ChildIndex(w.sups[s].childIds, dead);
    var w1 := CountRestart(w, s);
    GroupRestartUnfold(w, s, dead);
    CountMild(w, s);
    var all := w.sups[s].strategy.OneForAll?;
    var start, skip := if all then 0 else i + 1, if all then i else -1;
    ShutdownMild(w1, s, start, skip);
    var w2 := Shutdown(w1, s, start, skip);
    MildTrans(w, w1, w2);
    RespawnMild(w2, s, if all then 0 else i);
    MildTrans(w, w2, HandleExit(w, s, dead));
  }

  // ----- deaths stay inside a fence -----

  /** `D` holds whoever an error can reach, `S` also the siblings that group restarts take
  with them; `n0` bounds the ids there were at the start. */
  ghost predicate Fence(w: World, D: set<nat>, S: set<nat>, n0: nat)
    ensures Fence(w, D, S, n0) ==> Good(w)
  {
    && Good(w) && n0 <= w.nextId && D <= w.actors.Keys
    && (forall s :: 0 <= s < |w.sups| && w.sups[s].isDynamic ==> w.sups[s].strategy.OneForOne?)
    && (forall y, z :: y in D && z in w.actors[y].links ==> z < n0)
    && (forall y, z :: y in D && z in w.actors[y].links && Vulnerable(w.actors, z) ==> z in D)
    && (forall y :: y in D && Vulnerable(w.actors, y) ==> y in S)
    && (forall s, x, z: nat ::
          0 <= s < |w.sups| && x in D && z < n0 && Live(w.actors, z) && Takes(w.sups[s], x, z) ==> z in S)
    && (forall y :: y in D ==> y < n0)
  }

  /** Of those there were at the start only members of `S` have died. */
  ghost predicate Confined(w: World, r: World, S: set<nat>, n0: nat) {
    Mild(w, r) && forall y :: y in Killed(w, r) && y < n0 ==> y in S
  }

  lemma ConfinedTrans(w: World, w1: World, r: World, S: set<nat>, n0: nat)
    requires Confined(w, w1, S, n0) && Confined(w1, r, S, n0)
    ensures Confined(w, r, S, n0)
  {
    MildTrans(w, w1, r);
    hide Mild;
    forall y | y in Killed(w, r) && y < n0 ensures y in S {
      assert y in Killed(w, w1) || y in Killed(w1, r);
    }
  }

  lemma StillTakes(p: Supervisor, q: Supervisor, x: nat, z: nat, nextId: nat)
    requires SlotsKept(p, q, nextId) && Takes(q, x, z) && x < nextId && z < nextId
    ensures Takes(p, x, z)
  {
    var i: nat, j: nat :| Slots(q, x, z, i, j);
    assert Slots(p, x, z, i, j);
  }

  lemma FenceKept(w: World, r: World, D: set<nat>, S: set<nat>, n0: nat)
    requires Fence(w, D, S, n0) && Fine(w, r) && Mild(w, r)
    ensures Fence(r, D, S, n0)
  {
    hide Good, NoLarger, Takes;
    forall s, x, z: nat | 0 <= s < |r.sups| && x in D && z < n0 && Live(r.actors, z) && Takes(r.sups[s], x, z)
      ensures z in S
    {
      assert SlotsKept(w.sups[s], r.sups[s], w.nextId);
      StillTakes(w.sups[s], r.sups[s], x, z, w.nextId);
    }
    OldFence(w, r, D, S, n0);
  }

  lemma OldFence(w: World, r: World, D: set<nat>, S: set<nat>, n0: nat)
    requires Fence(w, D, S, n0) && Evolves(w, r) && Mild(w, r)
    ensures forall s :: 0 <= s < |r.sups| && r.sups[s].isDynamic ==> r.sups[s].strategy.OneForOne?
    ensures forall y :: y in D ==> y in r.actors
    ensures forall y, z :: y in D && z in r.actors[y].links ==> z < n0
    ensures forall y, z :: y in D && z in r.actors[y].links && Vulnerable(r.actors, z) ==> z in D
    ensures forall y :: y in D && Vulnerable(r.actors, y) ==> y in S
  {
    hide Good, Takes;
    forall s | 0 <= s < |r.sups| && r.sups[s].isDynamic ensures r.sups[s].strategy.OneForOne? {
      assert SlotsKept(w.sups[s], r.sups[s], w.nextId);
    }
    forall y, z | y in D && z in r.actors[y].links && Vulnerable(r.actors, z) ensures z in D {
      assert z < n0 <= w.nextId;
      assert z in w.actors && Vulnerable(w.actors, z);
    }
  }

  lemma NobodyConfined(w: World, S: set<nat>, n0: nat)
    ensures Confined(w, w, S, n0)
  {
    SameMild(w, w);
  }

  lemma {:induction false} ExitSignalConfined(w: World, t: nat, from: nat, D: set<nat>, S: set<nat>, n0: nat)
    requires Fence(w, D, S, n0) && (Vulnerable(w.actors, t) ==> t in D)
    ensures Confined(w, ExitSignal(w, t, from, true), S, n0)
    decreases Budget(w.sups), |LiveSet(w.actors)|, 0, 0
  {
    hide Good, Evolves, NoLarger, Fence, Confined, Mild;
    if Vulnerable(w.actors, t) {
      var k := Kill(w, t);
      KillFine(w, t);
      KillMild(w, t);
      FenceKept(w, k, D, S, n0);
      NotifyConfined(k, t, D, S, n0);
      VictimConfined(w, t, D, S, n0);
      ConfinedTrans(w, k, ExitSignal(w, t, from, true), S, n0);
    } else {
      SurvivorConfined(w, t, from, S, n0);
    }
  }

  lemma VictimConfined(w: World, t: nat, D: set<nat>, S: set<nat>, n0: nat)
    requires Fence(w, D, S, n0) && Vulnerable(w.actors, t) && t in D
    ensures Confined(w, Kill(w, t), S, n0)
  {
    hide Good;
    KillMild(w, t);
    assert Killed(w, Kill(w, t)) == {t};
  }

  lemma SurvivorConfined(w: World, t: nat, from: nat, S: set<nat>, n0: nat)
    requires Good(w) && !Vulnerable(w.actors, t)
    ensures Confined(w, ExitSignal(w, t, from, true), S, n0)
  {
    SameMild(w, ExitSignal(w, t, from, true));
  }

  lemma {:induction false} NotifyConfined(w: World, a: nat, D: set<nat>, S: set<nat>, n0: nat)
    requires Fence(w, D, S, n0) && a in D && a in w.actors && !w.actors[a].alive
    ensures Confined(w, NotifyExit(w, a, true), S, n0)
    decreases Budget(w.sups), |LiveSet(w.actors)|, 3, 0
  {
    hide Good, Evolves, NoLarger, Fence, Confined, Mild, TellSupervisor;
    var w1 := TellSupervisor(w, a, true);
    SupervisorConfined(w, a, D, S, n0);
    FenceKept(w, w1, D, S, n0);
    StaysDead(w, w1, a);
    DetachFine(w1, a);
    var w2 := Detach(w1, a);
    var w3 := TellMonitors(w2, w1.actors[a].monitors, a, true);
    FineTrans(w1, w2, w3);
    ListsTaken(w1, w3, a, S, n0);
    FenceKept(w1, w3, D, S, n0);
    LinksInFence(w1, w3, a, D, S, n0);
    NotGrown(w, w1, w3, a);
    LinksConfined(w3, w1.actors[a].links, a, D, S, n0);
    ConfinedTrans(w, w1, w3, S, n0);
    ConfinedTrans(w, w3, NotifyExit(w, a, true), S, n0);
  }

  lemma StaysDead(w: World, w1: World, a: nat)
    requires Evolves(w, w1) && a in w.actors && !w.actors[a].alive
    ensures a in w1.actors && !w1.actors[a].alive
  {
  }

  lemma ListsTaken(w1: World, w3: World, a: nat, S: set<nat>, n0: nat)
    requires a in w1.actors && !w1.actors[a].alive && w3 == Detach(w1, a).(sent := w3.sent)
    ensures Mild(w1, w3) && Confined(w1, w3, S, n0)
  {
    SameMild(w1, w3);
    SameLive(w1, w3, a);
  }

  lemma LinksInFence(w1: World, w3: World, a: nat, D: set<nat>, S: set<nat>, n0: nat)
    requires Fence(w1, D, S, n0) && a in D && a in w1.actors && !w1.actors[a].alive
    requires w3 == Detach(w1, a).(sent := w3.sent)
    ensures forall z :: z in w1.actors[a].links ==> z < n0 && (Vulnerable(w3.actors, z) ==> z in D)
  {
    hide Good, Takes;
  }

  lemma NotGrown(w: World, w1: World, w3: World, a: nat)
    requires NoLarger(w1, w) && a in w1.actors && !w1.actors[a].alive && w3 == Detach(w1, a).(sent := w3.sent)
    ensures Budget(w3.sups) < Budget(w.sups)
            || (Budget(w3.sups) == Budget(w.sups) && |LiveSet(w3.actors)| <= |LiveSet(w.actors)|)
  {
    SameLive(w1, w3, a);
  }

  /** The supervisor of an actor inside the fence takes only siblings inside. */
  lemma SupervisorConfined(w: World, a: nat, D: set<nat>, S: set<nat>, n0: nat)
    requires Fence(w, D, S, n0) && a in D && a in w.actors && !w.actors[a].alive
    ensures Confined(w, TellSupervisor(w, a, true), S, n0) && Mild(w, TellSupervisor(w, a, true))
  {
    hide Good, Evolves, NoLarger, HandleExit, Mild, Group, Takes;
    var s := FindSup(w.sups, a);
    if s < 0 {
      NobodyConfined(w, S, n0);
    } else if RestartsGroup(w.sups[s]) {
      GroupRestartExact(w, s, a);
      GroupMild(w, s, a);
      var r := HandleExit(w, s, a);
      forall y | y in Killed(w, r) && y < n0 ensures y in S {
        GroupIsTaken(w.sups[s], a, y);
      }
    } else {
      GentleMild(w, s, a);
      GentleExit(w, s, a);
      assert Killed(w, HandleExit(w, s, a)) == {};
    }
  }

  lemma GentleMild(w: World, s: nat, dead: nat)
    requires Good(w) && s < |w.sups| && !RestartsGroup(w.sups[s])
    requires w.sups[s].isDynamic ==> w.sups[s].strategy.OneForOne?
    ensures Mild(w, HandleExit(w, s, dead)) && Gentle(w.sups[s])
  {
    hide Mild, Spawn, RemoveChild;
    var i := ChildIndex(w.sups[s].childIds, dead);
    if w.sups[s].restartCount >= SUP_MAX_RESTARTS || i < 0 {
      SameMild(w, w);
    } else if w.sups[s].isDynamic && w.sups[s].childRestart[i].Temporary? {
      RemovalMild(w, s, i);
    } else {
      RestartCounted(w, s);
      CountMild(w, s);
      SpawnMild(CountRestart(w, s), s, i);
      MildTrans(w, CountRestart(w, s), Spawn(CountRestart(w, s), s, i));
    }
  }

  lemma {:induction false} LinksConfined(w: World, links: seq<nat>, a: nat, D: set<nat>, S: set<nat>, n0: nat)
    requires Fence(w, D, S, n0) && a in w.actors
    requires forall z :: z in links && Vulnerable(w.actors, z) ==> z in D
    requires forall z :: z in links ==> z < n0
    ensures Confined(w, TellLinks(w, links, a, true), S, n0)
    decreases Budget(w.sups), |LiveSet(w.actors)|, 2, |links|
  {
    hide Good, Evolves, NoLarger, Fence, Confined, Mild, TellLinks;
    if links == [] {
      NoLinks(w, a, S);
      NobodyConfined(w, S, n0);
    } else {
      var w1 := ExitSignal(w, links[0], a, true);
      ExitSignalConfined(w, links[0], a, D, S, n0);
      TellLinksUnfold(w, links, a);
      RestInFence(w, w1, links, D, S, n0);
      LinksConfined(w1, links[1..], a, D, S, n0);
      ConfinedTrans(w, w1, TellLinks(w1, links[1..], a, true), S, n0);
    }
  }

  lemma RestInFence(w: World, w1: World, links: seq<nat>, D: set<nat>, S: set<nat>, n0: nat)
    requires Fence(w, D, S, n0) && links != [] && Fine(w, w1) && Confined(w, w1, S, n0)
    requires forall z :: z in links && Vulnerable(w.actors, z) ==> z in D
    requires forall z :: z in links ==> z < n0
    ensures Fence(w1, D, S, n0) && forall a :: a in w.actors ==> a in w1.actors
    ensures forall z :: z in links[1..] && Vulnerable(w1.actors, z) ==> z in D
    ensures forall z :: z in links[1..] ==> z < n0
    ensures Budget(w1.sups) < Budget(w.sups)
            || (Budget(w1.sups) == Budget(w.sups) && |LiveSet(w1.actors)| <= |LiveSet(w.actors)|)
  {
    FenceKept(w, w1, D, S, n0);
    hide Good, Takes;
    forall z | z in links[1..] ensures z < n0 && (Vulnerable(w1.actors, z) ==> z in D) {
      assert z in links;
    }
  }

  // ----- the theorem -----

  /** The live actors that a group restart takes with a member of `X`. */
  ghost function Siblings(w: World, X: set<nat>): (r: set<nat>) {
    set z | z in w.actors && Live(w.actors, z) && Taken(w, X, z)
  }

  ghost predicate Taken(w: World, X: set<nat>, z: nat) {
    exists s, x :: 0 <= s < |w.sups| && x in X && Takes(w.sups[s], x, z)
  }

  /** Whatever the supervisors, an actor that the exit of `a` with an error kills is reached
  by links through vulnerable actors, or is a sibling in the group of `a` or of one so
  reached. */
  lemma DeathsConfined(w: World, a: nat)
    requires Good(w) && Wired(w) && a in w.actors && !w.actors[a].alive
    requires forall z :: z in w.actors[a].links ==> z < w.nextId
    requires forall s :: 0 <= s < |w.sups| && w.sups[s].isDynamic ==> w.sups[s].strategy.OneForOne?
    ensures var reach := ReachSet(w.actors, a);
            Killed(w, NotifyExit(w, a, true)) <= reach + Siblings(w, reach + {a})
  {
    var reach := ReachSet(w.actors, a);
    var S := reach + Siblings(w, reach + {a});
    ReachSetAbsorbs(w.actors, a);
    assert reach <= w.actors.Keys;
    hide ReachSet;
    StartFence(w, a, reach, S);
    NotifyConfined(w, a, reach + {a}, S, w.nextId);
    assert forall y :: y in Killed(w, NotifyExit(w, a, true)) ==> y in w.actors && y < w.nextId;
  }

  lemma StartFence(w: World, a: nat, reach: set<nat>, S: set<nat>)
    requires Good(w) && Wired(w) && a in w.actors && !w.actors[a].alive && reach <= w.actors.Keys
    requires forall z :: z in w.actors[a].links ==> z < w.nextId
    requires forall s :: 0 <= s < |w.sups| && w.sups[s].isDynamic ==> w.sups[s].strategy.OneForOne?
    requires Absorbs(w.actors, reach) && forall z :: z in reach ==> Vulnerable(w.actors, z)
    requires forall z :: z in w.actors[a].links && Vulnerable(w.actors, z) ==> z in reach
    requires S == reach + Siblings(w, reach + {a})
    ensures Fence(w, reach + {a}, S, w.nextId)
  {
    hide Takes;
    forall s, x, z: nat | 0 <= s < |w.sups| && x in reach + {a} && Live(w.actors, z) && Takes(w.sups[s], x, z)
      ensures z in S
    {
      assert Taken(w, reach + {a}, z);
    }
  }
}
