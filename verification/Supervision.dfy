/** What a supervisor does when a child ends (bootstrap/actor.c:452-469, 560-687). */
module Supervision {
  // Said of the states before and after, without the functions that compute the one from the
  // other. Supervisors are as they are created: a dynamic one restarts one child only
  // (bootstrap/primitives.c:3801).

  import opened ActorExit
  import opened ExitReach

  /** Slot `j` is one of those from `lo` to `hi` that are refilled, and the registry has room
  when its turn comes. */
  predicate Room(w: World, lo: nat, hi: nat, j: nat) {
    lo <= j < hi && |w.actors| + (j - lo) < 256
  }

  predicate Fresh(w: World, r: World, id: nat) {
    id !in w.actors && id in r.actors && r.actors[id] == RESTARTED
  }

  ghost predicate Different(w: World, ids: seq<nat>, lo: nat, hi: nat) {
    forall j, k :: 0 <= j < k < |ids| && Room(w, lo, hi, j) && Room(w, lo, hi, k) ==> ids[j] != ids[k]
  }

  /** The child slots from `lo` to `hi` hold different live actors that did not exist before,
  as far as the registry has room; the other slots are as before. */
  ghost predicate Refilled(w: World, r: World, s: nat, lo: nat, hi: nat)
    requires s < |w.sups|
  {
    && |r.sups| == |w.sups|
    && var ids, ids' := w.sups[s].childIds, r.sups[s].childIds;
    && |ids'| == |ids|
    && (forall j :: 0 <= j < |ids| ==> if Room(w, lo, hi, j) then Fresh(w, r, ids'[j]) else ids'[j] == ids[j])
    && Different(w, ids', lo, hi)
    && (forall y :: y in w.actors ==> y in r.actors && r.actors[y] == w.actors[y])
  }

  lemma SpawnRefills(w: World, s: nat, i: nat)
    requires Good(w) && s < |w.sups| && i < |w.sups[s].childIds|
    ensures Refilled(w, Spawn(w, s, i), s, i, i + 1)
    ensures Spawn(w, s, i).sups[s] == w.sups[s].(childIds := Spawn(w, s, i).sups[s].childIds)
    ensures |Spawn(w, s, i).actors| == |w.actors| + if |w.actors| < MAX_ACTORS then 1 else 0
  {
  }

  lemma {:induction false} RespawnRefills(w: World, s: nat, i: nat)
    requires Good(w) && s < |w.sups|
    ensures Refilled(w, Respawn(w, s, i), s, i, |w.sups[s].childIds|)
    ensures Respawn(w, s, i).sups[s] == w.sups[s].(childIds := Respawn(w, s, i).sups[s].childIds)
    decreases |w.sups[s].childIds| - i
  {
    hide Good, Evolves, Spawn;
    if i < |w.sups[s].childIds| {
      SpawnFine(w, s, i);
      SpawnRefills(w, s, i);
      var w1 := Spawn(w, s, i);
      RespawnRefills(w1, s, i + 1);
      RefilledOn(w, w1, Respawn(w1, s, i + 1), s, i);
    }
  }

  lemma RefilledOn(w: World, w1: World, r: World, s: nat, i: nat)
    requires s < |w.sups| && i < |w.sups[s].childIds| && Refilled(w, w1, s, i, i + 1)
    requires |w1.actors| == |w.actors| + if |w.actors| < MAX_ACTORS then 1 else 0
    requires Refilled(w1, r, s, i + 1, |w.sups[s].childIds|)
    ensures Refilled(w, r, s, i, |w.sups[s].childIds|)
  {
    var n := |w.sups[s].childIds|;
    forall j: nat ensures Room(w, i, n, j) <==> (j == i && Room(w, i, n, i)) || Room(w1, i + 1, n, j) {
    }
    assert Room(w, i, i + 1, i) == Room(w, i, n, i);
  }

  /** The slots that the strategy refills when child `i` has died. */
  function First(sup: Supervisor, i: nat): (lo: nat) {
    if sup.strategy.OneForAll? then 0 else i
  }

  function Behind(sup: Supervisor, i: nat): (hi: nat) {
    if sup.strategy.OneForOne? then i + 1 else |sup.childIds|
  }

  /** The supervisor has counted one restart and refilled the slots of its strategy. */
  ghost predicate Restarted(w: World, r: World, s: nat, i: nat)
    requires s < |w.sups|
  {
    && |r.sups| == |w.sups|
    && var p, q := w.sups[s], r.sups[s];
    && q == p.(restartCount := p.restartCount + 1, childIds := q.childIds)
    && |q.childIds| == |p.childIds|
    && (forall j :: 0 <= j < |p.childIds| ==>
          if Room(w, First(p, i), Behind(p, i), j) then Fresh(w, r, q.childIds[j]) else q.childIds[j] == p.childIds[j])
    && Different(w, q.childIds, First(p, i), Behind(p, i))
  }

  lemma FromRefilled(w: World, w2: World, r: World, s: nat, i: nat)
    requires s < |w.sups| && |w2.sups| == |w.sups| && w2.actors.Keys == w.actors.Keys
    requires w2.sups[s] == w.sups[s].(restartCount := w.sups[s].restartCount + 1)
    requires Refilled(w2, r, s, First(w.sups[s], i), Behind(w.sups[s], i))
    requires r.sups[s] == w2.sups[s].(childIds := r.sups[s].childIds)
    ensures Restarted(w, r, s, i)
  {
    assert |w2.actors| == |w2.actors.Keys| == |w.actors.Keys| == |w.actors|;
    var lo, hi := First(w.sups[s], i), Behind(w.sups[s], i);
    assert forall j :: Room(w, lo, hi, j) == Room(w2, lo, hi, j);
    assert forall id :: Fresh(w2, r, id) ==> Fresh(w, r, id);
  }

  /** An error with restarts left: exactly the slots of the strategy get new children. */
  lemma ErrorRestarts(w: World, a: nat)
    requires Good(w) && a in w.actors && !w.actors[a].alive && FindSup(w.sups, a) >= 0
    requires var sup := w.sups[FindSup(w.sups, a)];
             && sup.restartCount < SUP_MAX_RESTARTS && (sup.isDynamic ==> sup.strategy.OneForOne?)
             && !(sup.isDynamic && sup.childRestart[ChildIndex(sup.childIds, a)].Temporary?)
    ensures var s := FindSup(w.sups, a);
            Restarted(w, TellSupervisor(w, a, true), s, ChildIndex(w.sups[s].childIds, a))
  {
    hide Evolves, NoLarger, Shutdown, Respawn, Spawn, Restarted, Refilled, HandleExit;
    var s := FindSup(w.sups, a);
    var i := ChildIndex(w.sups[s].childIds, a);
    assert TellSupervisor(w, a, true) == HandleExit(w, s, a);
    if w.sups[s].strategy.OneForOne? {
      OneRestart(w, s, a);
    } else {
      GroupRestart(w, s, a);
    }
  }

  lemma OneRestart(w: World, s: nat, dead: nat)
    requires Good(w) && s < |w.sups| && w.sups[s].strategy.OneForOne? && dead in w.sups[s].childIds
    requires w.sups[s].restartCount < SUP_MAX_RESTARTS
    requires !(w.sups[s].isDynamic && w.sups[s].childRestart[ChildIndex(w.sups[s].childIds, dead)].Temporary?)
    ensures Restarted(w, HandleExit(w, s, dead), s, ChildIndex(w.sups[s].childIds, dead))
  {
    RestartCounted(w, s);
    hide Good, Evolves, NoLarger, Spawn, Restarted, Refilled;
    var i := ChildIndex(w.sups[s].childIds, dead);
    var w1 := CountRestart(w, s);
    assert HandleExit(w, s, dead) == Spawn(w1, s, i);
    SpawnRefills(w1, s, i);
    FromRefilled(w, w1, HandleExit(w, s, dead), s, i);
  }

  lemma GroupRestart(w: World, s: nat, dead: nat)
    requires Good(w) && s < |w.sups| && RestartsGroup(w.sups[s]) && dead in w.sups[s].childIds
    ensures Restarted(w, HandleExit(w, s, dead), s, ChildIndex(w.sups[s].childIds, dead))
  {
    hide Good, Evolves, NoLarger, Shutdown, Respawn, HandleExit, Restarted, Refilled, GroupGone, From, Group;
    var i := ChildIndex(w.sups[s].childIds, dead);
    var all := w.sups[s].strategy.OneForAll?;
    var w1 := CountRestart(w, s);
    GroupRestartUnfold(w, s, dead);
    ShutdownExact(w1, s, if all then 0 else i + 1, if all then i else -1);
    var w2 := Shutdown(w1, s, if all then 0 else i + 1, if all then i else -1);
    RespawnRefills(w2, s, if all then 0 else i);
    FromRefilled(w, w2, HandleExit(w, s, dead), s, i);
  }

  /** With five restarts behind it the supervisor does nothing. */
  lemma NoRestartLeft(w: World, a: nat)
    requires Good(w) && a in w.actors && !w.actors[a].alive && FindSup(w.sups, a) >= 0
    requires w.sups[FindSup(w.sups, a)].restartCount == 5
    ensures TellSupervisor(w, a, true) == w
  {
  }

  /** A temporary child of a dynamic supervisor is off the list after an error, and nobody is
  started. */
  lemma TemporaryIsDropped(w: World, a: nat)
    requires Good(w) && a in w.actors && !w.actors[a].alive && FindSup(w.sups, a) >= 0
    requires var sup := w.sups[FindSup(w.sups, a)];
             && sup.restartCount < SUP_MAX_RESTARTS && sup.isDynamic
             && sup.childRestart[ChildIndex(sup.childIds, a)] == Temporary
    ensures var s := FindSup(w.sups, a);
            ChildGone(w, TellSupervisor(w, a, true), s, ChildIndex(w.sups[s].childIds, a))
  {
    assert forall t :: 0 <= t < |w.sups| ==> SupOk(w.sups[t]);
    hide ChildGone, Good, Evolves, NoLarger, RemoveChild, Restart;
    var s := FindSup(w.sups, a);
    RemoveChildMeans(w, s, ChildIndex(w.sups[s].childIds, a));
  }

  /** After a normal end a child of a dynamic supervisor is off the list unless it is
  permanent; in every other case nothing changes. */
  lemma NormalEnd(w: World, a: nat)
    requires Good(w) && a in w.actors && !w.actors[a].alive
    ensures var s, r := FindSup(w.sups, a), TellSupervisor(w, a, false);
            var i := if s >= 0 then ChildIndex(w.sups[s].childIds, a) else -1;
            if s >= 0 && w.sups[s].isDynamic && w.sups[s].childRestart[i] != Permanent then ChildGone(w, r, s, i)
            else r == w
  {
    hide ChildGone;
    var s := FindSup(w.sups, a);
    if s >= 0 {
      RemoveChildMeans(w, s, ChildIndex(w.sups[s].childIds, a));
    }
  }
}
