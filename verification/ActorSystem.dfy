/** The actor registry and supervisors as the object whose fields the exit machinery
updates in place (bootstrap/actor.c:340-688).

Every method is proved to perform the corresponding function of `ActorExit` on the whole
state: the actor records, the live counter, the supervisors, the messages sent and the
order of deaths.  Together with the theorems about those functions this says what each
call does, however far the cascade of exits runs. */
module ActorSystem {
  import opened ActorExit

  class System {
    var actors: map<nat, Actor>
    var nextId: nat
    var aliveCount: int
    var sups: seq<Supervisor>
    ghost var sent: multiset<Message>
    ghost var deaths: seq<nat>

    ghost function State(): (w: World)
      reads this
    {
      World(actors, nextId, aliveCount, sups, sent, deaths)
    }

    constructor ()
      ensures Good(State()) && actors == map[] && sups == []
    {
      actors, nextId, aliveCount, sups := map[], 1, 0, [];
      sent, deaths := multiset{}, [];
    }

    /** `actor_finish`. */
    method Finish(a: nat, err: bool) returns (killed: bool)
      requires Good(State())
      modifies this
      ensures killed == Live(old(actors), a)
      ensures State() == ActorExit.Finish(old(State()), a, err) && Good(State())
    {
      if !(a in actors && actors[a].alive) {
        return false;
      }
      KillFine(State(), a);
      MarkDead(a);
      NotifyExit(a, err);
      killed := true;
    }

    /** The critical section of every kill: clear the flag, drop the counter. */
    method MarkDead(a: nat)
      requires Good(State()) && Live(actors, a)
      modifies this
      ensures State() == Kill(old(State()), a) && OneDies(old(State()), State(), a)
    {
      hide Good, OneDies, LiveSet;
      KillMeans(State(), a);
      actors := actors[a := actors[a].(alive := false)];
      aliveCount := aliveCount - 1;
      deaths := deaths + [a];
    }

    /** `actor_exit_signal`. */
    method ExitSignal(target: nat, from: nat, err: bool)
      requires Good(State())
      modifies this
      ensures State() == ActorExit.ExitSignal(old(State()), target, from, err) && Fine(old(State()), State())
      decreases Budget(sups), |LiveSet(actors)|, 0, 0
    {
      if !(target in actors && actors[target].alive) {
        return;
      }
      if actors[target].trapExit {
        sent := sent + multiset{Exit(target, from, err)};
      } else {
        KillFine(State(), target);
        MarkDead(target);
        NotifyExit(target, err);
      }
    }

    /** `actor_notify_exit`. */
    method NotifyExit(a: nat, err: bool)
      requires Good(State()) && a in actors && !actors[a].alive
      modifies this
      ensures State() == ActorExit.NotifyExit(old(State()), a, err) && Fine(old(State()), State())
      decreases Budget(sups), |LiveSet(actors)|, 3, 0
    {
      hide Good, Evolves, NoLarger;
      ghost var w := State();
      TellSupervisor(a, err);
      ghost var w1 := State();
      StillDead(w, w1, a);
      var monitors, links := actors[a].monitors, actors[a].links;
      DetachFine(State(), a);
      actors := actors[a := actors[a].(links := [], monitors := [])];
      ghost var w2 := State();
      FineTrans(w, w1, w2);
      NotifyMonitors(monitors, a, err);
      ghost var w3 := State();
      FineTrans(w, w2, w3);
      Shrinks(w, w3);
      NotifyLinks(links, a, err);
      FineTrans(w, w3, State());
    }

    lemma StillDead(w: World, w1: World, a: nat)
      requires Fine(w, w1) && a in w.actors && !w.actors[a].alive
      ensures a in w1.actors && !w1.actors[a].alive
    {
    }

    lemma Shrinks(w: World, r: World)
      requires Fine(w, r)
      ensures Budget(r.sups) < Budget(w.sups)
              || (Budget(r.sups) == Budget(w.sups) && |LiveSet(r.actors)| <= |LiveSet(w.actors)|)
    {
    }

    /** The monitor loop of `actor_notify_exit`. */
    method NotifyMonitors(monitors: seq<nat>, a: nat, err: bool)
      requires Good(State())
      modifies this
      ensures State() == TellMonitors(old(State()), monitors, a, err) && Fine(old(State()), State())
    {
      hide Good, Evolves, NoLarger;
      ghost var w := State();
      var i := 0;
      while i < |monitors|
        invariant 0 <= i <= |monitors| && Good(State())
        invariant TellMonitors(State(), monitors[i..], a, err) == TellMonitors(w, monitors, a, err)
      {
        var m := monitors[i];
        SendFine(State(), Down(m, a, err));
        if m in actors && actors[m].alive {
          sent := sent + multiset{Down(m, a, err)};
        }
        assert monitors[i..][1..] == monitors[i + 1..];
        i := i + 1;
      }
    }

    /** The link loop of `actor_notify_exit`. */
    method NotifyLinks(links: seq<nat>, a: nat, err: bool)
      requires Good(State())
      modifies this
      ensures State() == TellLinks(old(State()), links, a, err) && Fine(old(State()), State())
      decreases Budget(sups), |LiveSet(actors)|, 2, 0
    {
      hide Good, Evolves, NoLarger;
      ghost var w := State();
      var i := 0;
      FineSelf(w);
      while i < |links|
        invariant 0 <= i <= |links| && Fine(w, State())
        invariant TellLinks(State(), links[i..], a, err) == TellLinks(w, links, a, err)
      {
        ghost var before := State();
        Shrinks(w, before);
        TellLink(links[i], a, err);
        assert links[i..][1..] == links[i + 1..];
        FineTrans(w, before, State());
        i := i + 1;
      }
    }

    lemma FineSelf(w: World)
      requires Good(w)
      ensures Fine(w, w)
    {
    }

    method TellLink(link: nat, a: nat, err: bool)
      requires Good(State())
      modifies this
      ensures State() == ActorExit.TellLink(old(State()), link, a, err) && Fine(old(State()), State())
      decreases Budget(sups), |LiveSet(actors)|, 1, 0
    {
      if link in actors && actors[link].alive {
        if err {
          ExitSignal(link, a, true);
        } else if actors[link].trapExit {
          sent := sent + multiset{Exit(link, a, false)};
        }
      }
    }

    /** `supervisor_find_for_child`. */
    method FindSupervisor(a: nat) returns (s: int)
      ensures s == FindSup(sups, a)
    {
      s := 0;
      while s < |sups|
        invariant 0 <= s <= |sups|
        invariant FindSup(sups, a) == var t := FindSup(sups[s..], a); if t < 0 then -1 else s + t
      {
        if a in sups[s].childIds {
          return;
        }
        assert sups[s..][1..] == sups[s + 1..];
        s := s + 1;
      }
      s := -1;
    }

    /** The slot of a child in a supervisor's list. */
    method FindChild(ids: seq<nat>, a: nat) returns (i: int)
      ensures i == ChildIndex(ids, a)
    {
      i := 0;
      while i < |ids|
        invariant 0 <= i <= |ids|
        invariant ChildIndex(ids, a) == var j := ChildIndex(ids[i..], a); if j < 0 then -1 else i + j
      {
        if ids[i] == a {
          return;
        }
        assert ids[i..][1..] == ids[i + 1..];
        i := i + 1;
      }
      i := -1;
    }

    method TellSupervisor(a: nat, err: bool)
      requires Good(State()) && a in actors && !actors[a].alive
      modifies this
      ensures State() == ActorExit.TellSupervisor(old(State()), a, err) && Fine(old(State()), State())
      decreases Budget(sups), |LiveSet(actors)|, 2, 0
    {
      var s := FindSupervisor(a);
      if s < 0 {
        return;
      }
      if err {
        HandleExit(s, a);
      } else if sups[s].isDynamic {
        var i := FindChild(sups[s].childIds, a);
        if !sups[s].childRestart[i].Permanent? {
          DropChild(s, i);
        }
      }
    }

    /** `dynsup_remove_child_at`. */
    method DropChild(s: nat, i: nat)
      requires s < |sups| && i < |sups[s].childIds| == |sups[s].childRestart|
      modifies this
      ensures State() == RemoveChild(old(State()), s, i) && ChildGone(old(State()), State(), s, i)
    {
      hide ChildGone;
      RemoveChildMeans(State(), s, i);
      var sup := sups[s];
      sups := sups[s := sup.(childIds := sup.childIds[..i] + sup.childIds[i + 1..],
                             childRestart := sup.childRestart[..i] + sup.childRestart[i + 1..])];
    }

    /** `supervisor_spawn_child`. */
    method SpawnChild(s: nat, i: nat)
      requires Good(State()) && s < |sups|
      modifies this
      ensures State() == Spawn(old(State()), s, i) && ChildSpawned(old(State()), State(), s, i)
    {
      hide Good, ChildSpawned, LiveSet;
      SpawnMeans(State(), s, i);
      if i >= |sups[s].childIds| || |actors| >= MAX_ACTORS {
        return;
      }
      sups := sups[s := sups[s].(childIds := sups[s].childIds[i := nextId])];
      actors := actors[nextId := Actor(true, false, [], [])];
      nextId := nextId + 1;
      aliveCount := aliveCount + 1;
    }

    /** `supervisor_handle_exit`. */
    method HandleExit(s: nat, dead: nat)
      requires Good(State()) && s < |sups|
      modifies this
      ensures State() == ActorExit.HandleExit(old(State()), s, dead) && Fine(old(State()), State())
      decreases Budget(sups), |LiveSet(actors)|, 1, 0
    {
      hide Good, Evolves, NoLarger, Restart, RemoveChild, ChildIndex, Budget, LiveSet, ChildGone;
      SupFits(State(), s);
      FineSelf(State());
      ghost var w := State();
      if sups[s].restartCount >= SUP_MAX_RESTARTS {
        return;
      }
      var i := FindChild(sups[s].childIds, dead);
      if i < 0 {
        return;
      }
      if sups[s].isDynamic && sups[s].childRestart[i].Temporary? {
        DropChild(s, i);
        return;
      }
      ghost var sup1 := sups[s].(restartCount := sups[s].restartCount + 1);
      SetSupFine(State(), s, sup1);
      sups := sups[s := sups[s].(restartCount := sups[s].restartCount + 1)];
      assert State() == SetSup(w, s, sup1);
      RestartChildren(s, i);
    }

    /** The restart strategies. */
    method RestartChildren(s: nat, i: nat)
      requires Good(State()) && s < |sups|
      modifies this
      ensures State() == Restart(old(State()), s, i)
      decreases Budget(sups), |LiveSet(actors)|, 5, 0
    {
      hide Good, NoLarger;
      match sups[s].strategy {
        case OneForOne =>
          SpawnChild(s, i);
        case OneForAll =>
          ShutdownFrom(s, 0, i);
          RespawnFrom(s, 0);
        case RestForOne =>
          ShutdownFrom(s, i + 1, -1);
          RespawnFrom(s, i);
      }
    }

    lemma SupFits(w: World, s: nat)
      requires Good(w) && s < |w.sups|
      ensures SupOk(w.sups[s])
    {
    }

    /** The kill loop of a group restart. */
    method ShutdownFrom(s: nat, start: nat, skip: int)
      requires Good(State()) && s < |sups|
      modifies this
      ensures State() == Shutdown(old(State()), s, start, skip) && Fine(old(State()), State())
      decreases Budget(sups), |LiveSet(actors)|, 4, 0
    {
      hide Good, NoLarger;
      ghost var w := State();
      var i: nat := start;
      FineSelf(w);
      while i < |sups[s].childIds|
        invariant Fine(w, State()) && s < |sups|
        invariant Shutdown(State(), s, i, skip) == Shutdown(w, s, start, skip)
        decreases Budget(sups), |LiveSet(actors)|, |sups[s].childIds| - i
      {
        var child := sups[s].childIds[i];
        ghost var before := State();
        Shrinks(w, before);
        if i != skip && child in actors && actors[child].alive {
          KillFine(State(), child);
          MarkDead(child);
          ghost var k := State();
          NotifyExit(child, false);
          FineTrans(before, k, State());
          FineTrans(w, before, State());
          Shrinks(k, State());
        }
        i := i + 1;
      }
    }

    /** The spawn loop of a group restart. */
    method RespawnFrom(s: nat, start: nat)
      requires Good(State()) && s < |sups|
      modifies this
      ensures State() == Respawn(old(State()), s, start)
    {
      ghost var w := State();
      var i: nat := start;
      while i < |sups[s].childIds|
        invariant Good(State()) && s < |sups|
        invariant Respawn(State(), s, i) == Respawn(w, s, start)
        decreases |sups[s].childIds| - i
      {
        SpawnFine(State(), s, i);
        SpawnChild(s, i);
        i := i + 1;
      }
    }
  }
}
