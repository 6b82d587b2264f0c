/** Actor exits: exit signals along links, monitor notifications and supervisor restarts
(bootstrap/actor.c:255-688). */
module ActorExit {
  // Each critical section is one atomic update of the system state. The cascade is a set of
  // mutually recursive functions on that state; they terminate because the pair (restarts the
  // supervisors still allow, live actors) decreases lexicographically. `ActorSystem.dfy` holds
  // the methods that perform it.

  const MAX_ACTORS: nat := 256
  const SUP_MAX_RESTARTS: nat := 5

  datatype Actor = Actor(alive: bool, trapExit: bool, links: seq<nat>, monitors: seq<nat>)

  datatype Strategy = OneForOne | OneForAll | RestForOne

  datatype RestartType = Permanent | Transient | Temporary

  datatype Supervisor = Supervisor(
    strategy: Strategy, childIds: seq<nat>, childRestart: seq<RestartType>,
    restartCount: nat, isDynamic: bool)

  /** A message handed to a live actor's mailbox: `from` has ended, with an error or not. */
  datatype Message = Exit(to: nat, from: nat, err: bool) | Down(to: nat, from: nat, err: bool)

  /** `aliveCount` is the global counter; `sent` collects the messages handed out and
  `deaths` the actors in the order they died. */
  datatype World = World(
    actors: map<nat, Actor>, nextId: nat, aliveCount: int, sups: seq<Supervisor>,
    sent: multiset<Message>, deaths: seq<nat>)

  predicate Live(actors: map<nat, Actor>, a: nat) {
    a in actors && actors[a].alive
  }

  ghost function LiveSet(actors: map<nat, Actor>): (r: set<nat>) {
    set a | a in actors && actors[a].alive
  }

  // ----- atomic updates -----

  /** Marks an actor dead and drops the live counter. */
  function Kill(w: World, a: nat): (r: World)
    requires Live(w.actors, a)
  {
    w.(actors := w.actors[a := w.actors[a].(alive := false)],
       aliveCount := w.aliveCount - 1, deaths := w.deaths + [a])
  }

  function Send(w: World, m: Message): (r: World) {
    w.(sent := w.sent + multiset{m})
  }

  /** Takes the link and monitor lists of an actor, leaving them empty. */
  function Detach(w: World, a: nat): (r: World)
    requires a in w.actors
  {
    w.(actors := w.actors[a := w.actors[a].(links := [], monitors := [])])
  }

  function SetSup(w: World, s: nat, sup: Supervisor): (r: World)
    requires s < |w.sups|
  {
    w.(sups := w.sups[s := sup])
  }

  /** `supervisor_spawn_child`: a fresh actor takes over child slot `i`, unless the
  registry is full. */
  function Spawn(w: World, s: nat, i: nat): (r: World)
    requires s < |w.sups|
  {
    var sup := w.sups[s];
    if i >= |sup.childIds| || |w.actors| >= MAX_ACTORS then w
    else
      SetSup(w, s, sup.(childIds := sup.childIds[i := w.nextId]))
      .(actors := w.actors[w.nextId := Actor(true, false, [], [])],
        nextId := w.nextId + 1, aliveCount := w.aliveCount + 1)
  }

  /** `dynsup_remove_child_at`. */
  function RemoveChild(w: World, s: nat, i: nat): (r: World)
    requires s < |w.sups| && i < |w.sups[s].childIds| == |w.sups[s].childRestart|
  {
    var sup := w.sups[s];
    SetSup(w, s, sup.(childIds := sup.childIds[..i] + sup.childIds[i + 1..],
                      childRestart := sup.childRestart[..i] + sup.childRestart[i + 1..]))
  }

  // ----- what the updates mean -----

  /** Exactly `a` has died, and all else is as before. */
  ghost predicate OneDies(w: World, r: World, a: nat) {
    && LiveSet(r.actors) == LiveSet(w.actors) - {a} && a in LiveSet(w.actors)
    && r.actors.Keys == w.actors.Keys && (forall b :: b in w.actors && b != a ==> r.actors[b] == w.actors[b])
    && r.actors[a].links == w.actors[a].links && r.actors[a].monitors == w.actors[a].monitors
    && r.aliveCount == |LiveSet(r.actors)|
    && a !in w.deaths && |r.deaths| == |w.deaths| + 1 && w.deaths <= r.deaths && a in r.deaths
    && r.sups == w.sups && r.sent == w.sent && r.nextId == w.nextId
  }

  /** Child `i` of supervisor `s` is off its list; the others keep their order and their
  restart types. */
  ghost predicate ChildGone(w: World, r: World, s: nat, i: nat)
    requires s < |w.sups| && i < |w.sups[s].childIds| == |w.sups[s].childRestart|
  {
    && |r.sups| == |w.sups| && (forall t :: 0 <= t < |w.sups| && t != s ==> r.sups[t] == w.sups[t])
    && r == w.(sups := r.sups)
    && var p, q := w.sups[s], r.sups[s];
    && q == p.(childIds := q.childIds, childRestart := q.childRestart)
    && |q.childIds| == |q.childRestart| == |p.childIds| - 1
    && multiset(q.childIds) == multiset(p.childIds) - multiset{p.childIds[i]}
    && (forall j :: 0 <= j < |q.childIds| ==>
          var k := if j < i then j else j + 1;
          q.childIds[j] == p.childIds[k] && q.childRestart[j] == p.childRestart[k])
  }

  /** With a free slot in the registry, child slot `i` of supervisor `s` is taken by a live
  actor that did not exist before, trapping nothing, linked and monitored by nobody; all
  others are as before.  Without one nothing has happened. */
  ghost predicate ChildSpawned(w: World, r: World, s: nat, i: nat)
    requires s < |w.sups|
  {
    if i >= |w.sups[s].childIds| || |w.actors| >= MAX_ACTORS then r == w
    else
      && |r.sups| == |w.sups| && (forall t :: 0 <= t < |w.sups| && t != s ==> r.sups[t] == w.sups[t])
      && var p, q := w.sups[s], r.sups[s];
      && q == p.(childIds := q.childIds) && |q.childIds| == |p.childIds|
      && (forall j :: 0 <= j < |p.childIds| && j != i ==> q.childIds[j] == p.childIds[j])
      && var id := q.childIds[i];
      && id !in w.actors && r.actors.Keys == w.actors.Keys + {id} && id < r.nextId
      && LiveSet(r.actors) == LiveSet(w.actors) + {id} && r.aliveCount == |LiveSet(r.actors)|
      && !r.actors[id].trapExit && r.actors[id].links == r.actors[id].monitors == []
      && (forall b :: b in w.actors ==> r.actors[b] == w.actors[b])
      && r.deaths == w.deaths && r.sent == w.sent
  }

  lemma KillMeans(w: World, a: nat)
    requires Good(w) && Live(w.actors, a)
    ensures OneDies(w, Kill(w, a), a)
  {
    assert LiveSet(Kill(w, a).actors) == LiveSet(w.actors) - {a};
  }

  lemma RemoveChildMeans(w: World, s: nat, i: nat)
    requires s < |w.sups| && i < |w.sups[s].childIds| == |w.sups[s].childRestart|
    ensures ChildGone(w, RemoveChild(w, s, i), s, i)
  {
    Without(w.sups[s].childIds, i);
    Without(w.sups[s].childRestart, i);
    assert RemoveChild(w, s, i).sups[s].childIds == w.sups[s].childIds[..i] + w.sups[s].childIds[i + 1..];
  }

  lemma Without<T>(xs: seq<T>, i: nat)
    requires i < |xs|
    ensures var ys := xs[..i] + xs[i + 1..];
            && |ys| == |xs| - 1 && multiset(ys) == multiset(xs) - multiset{xs[i]}
            && forall j :: 0 <= j < |ys| ==> ys[j] == xs[if j < i then j else j + 1]
  {
    assert xs == xs[..i] + [xs[i]] + xs[i + 1..];
  }

  lemma SpawnMeans(w: World, s: nat, i: nat)
    requires Good(w) && s < |w.sups|
    ensures ChildSpawned(w, Spawn(w, s, i), s, i)
  {
    assert w.nextId !in w.actors && w.aliveCount == |LiveSet(w.actors)|;
    hide Good, LiveSet;
    if i < |w.sups[s].childIds| && |w.actors| < MAX_ACTORS {
      SpawnLive(w, s, i);
      OneMoreLive(w.actors, w.nextId);
    }
  }

  lemma OneMoreLive(actors: map<nat, Actor>, id: nat)
    requires id !in actors
    ensures LiveSet(actors[id := Actor(true, false, [], [])]) == LiveSet(actors) + {id}
  {
  }

  // ----- lookups -----

  function ChildIndex(ids: seq<nat>, a: nat): (i: int)
    ensures -1 <= i < |ids|
    ensures i >= 0 ==> ids[i] == a && a !in ids[..i]
    ensures i < 0 <==> a !in ids
  {
    if ids == [] then -1
    else if ids[0] == a then 0
    else
      var j := ChildIndex(ids[1..], a);
      assert j >= 0 ==> ids[..j + 1] == [ids[0]] + ids[1..][..j];
      if j < 0 then -1 else j + 1
  }

  /** `supervisor_find_for_child`: the first supervisor that lists `a`. */
  function FindSup(sups: seq<Supervisor>, a: nat): (s: int)
    ensures -1 <= s < |sups|
    ensures s >= 0 ==> a in sups[s].childIds && forall i :: 0 <= i < s ==> a !in sups[i].childIds
    ensures s < 0 <==> forall i :: 0 <= i < |sups| ==> a !in sups[i].childIds
  {
    if sups == [] then -1
    else if a in sups[0].childIds then 0
    else
      var j := FindSup(sups[1..], a);
      assert forall i :: 0 < i < |sups| ==> sups[i] == sups[1..][i - 1];
      if j < 0 then -1 else j + 1
  }

  // ----- invariant and measure -----

  ghost predicate Good(w: World) {
    && w.aliveCount == |LiveSet(w.actors)|
    && w.nextId >= 1 && (forall a :: a in w.actors ==> 1 <= a < w.nextId)
    && (forall a :: a in w.actors && !w.actors[a].alive ==> a in w.deaths)
    && (forall i :: 0 <= i < |w.deaths| ==> w.deaths[i] in w.actors && !w.actors[w.deaths[i]].alive)
    && (forall i, j :: 0 <= i < j < |w.deaths| ==> w.deaths[i] != w.deaths[j])
    && (forall s :: 0 <= s < |w.sups| ==> SupOk(w.sups[s]))
  }

  predicate SupOk(sup: Supervisor) {
    sup.restartCount <= SUP_MAX_RESTARTS && |sup.childIds| == |sup.childRestart|
  }

  /** Restarts the supervisors may still perform. */
  function Budget(sups: seq<Supervisor>): (n: nat) {
    if sups == [] then 0
    else (if sups[0].restartCount < SUP_MAX_RESTARTS then SUP_MAX_RESTARTS - sups[0].restartCount else 0)
         + Budget(sups[1..])
  }

  /** The termination measure has not grown. */
  ghost predicate NoLarger(r: World, w: World) {
    || Budget(r.sups) < Budget(w.sups)
    || (Budget(r.sups) == Budget(w.sups) && |LiveSet(r.actors)| <= |LiveSet(w.actors)|)
  }

  /** Nobody comes back to life, live actors keep their record, new actors have new ids,
  deaths and restart counts only grow. */
  ghost predicate Evolves(w: World, r: World) {
    && (forall a :: a in w.actors ==>
          && a in r.actors
          && r.actors[a].trapExit == w.actors[a].trapExit
          && (r.actors[a].alive ==> r.actors[a] == w.actors[a]))
    && (forall n :: n in r.actors && n !in w.actors ==> n >= w.nextId)
    && w.deaths <= r.deaths && w.nextId <= r.nextId && w.sent <= r.sent
    && |r.sups| == |w.sups|
    && (forall s :: 0 <= s < |w.sups| ==> w.sups[s].restartCount <= r.sups[s].restartCount)
  }

  ghost predicate Fine(w: World, r: World) {
    Good(r) && Evolves(w, r) && NoLarger(r, w)
  }

  lemma FineTrans(w: World, r: World, q: World)
    requires Fine(w, r) && Fine(r, q)
    ensures Fine(w, q)
  {
  }

  lemma KillFine(w: World, a: nat)
    requires Good(w) && Live(w.actors, a)
    ensures Fine(w, Kill(w, a)) && |LiveSet(Kill(w, a).actors)| == |LiveSet(w.actors)| - 1
    ensures Kill(w, a).sups == w.sups
  {
    assert LiveSet(Kill(w, a).actors) == LiveSet(w.actors) - {a};
  }

  lemma DetachFine(w: World, a: nat)
    requires Good(w) && a in w.actors && !w.actors[a].alive
    ensures Fine(w, Detach(w, a)) && Detach(w, a).sups == w.sups
  {
    assert LiveSet(Detach(w, a).actors) == LiveSet(w.actors);
  }

  lemma SendFine(w: World, m: Message)
    requires Good(w)
    ensures Fine(w, Send(w, m)) && Send(w, m).sups == w.sups
  {
  }

  lemma {:induction false} BudgetUpdate(sups: seq<Supervisor>, s: nat, sup: Supervisor)
    requires s < |sups|
    ensures sup.restartCount == sups[s].restartCount ==> Budget(sups[s := sup]) == Budget(sups)
    ensures sup.restartCount == sups[s].restartCount + 1 && sups[s].restartCount < SUP_MAX_RESTARTS ==>
              Budget(sups[s := sup]) == Budget(sups) - 1
  {
    if s > 0 {
      BudgetUpdate(sups[1..], s - 1, sup);
      assert sups[s := sup][1..] == sups[1..][s - 1 := sup];
    } else {
      assert sups[s := sup][1..] == sups[1..];
    }
  }

  lemma SpawnFine(w: World, s: nat, i: nat)
    requires Good(w) && s < |w.sups|
    ensures var r := Spawn(w, s, i);
            && Good(r) && Evolves(w, r) && Budget(r.sups) == Budget(w.sups)
            && |r.sups[s].childIds| == |w.sups[s].childIds|
  {
    var r := Spawn(w, s, i);
    if r != w {
      BudgetUpdate(w.sups, s, r.sups[s]);
      SpawnLive(w, s, i);
    }
  }

  lemma SpawnLive(w: World, s: nat, i: nat)
    requires s < |w.sups| && Spawn(w, s, i) != w && w.nextId !in w.actors
    ensures |LiveSet(Spawn(w, s, i).actors)| == |LiveSet(w.actors)| + 1
  {
    assert LiveSet(Spawn(w, s, i).actors) == LiveSet(w.actors) + {w.nextId};
  }

  lemma SetSupFine(w: World, s: nat, sup: Supervisor)
    requires Good(w) && s < |w.sups| && SupOk(sup) && sup.restartCount >= w.sups[s].restartCount
    requires sup.restartCount <= w.sups[s].restartCount + 1
    ensures Fine(w, SetSup(w, s, sup))
    ensures sup.restartCount > w.sups[s].restartCount ==> Budget(SetSup(w, s, sup).sups) < Budget(w.sups)
  {
    BudgetUpdate(w.sups, s, sup);
  }

  // ----- the cascade -----

  /** `actor_exit_signal`: a trapping actor gets a message, any other live one dies and
  passes the exit on. */
  function ExitSignal(w: World, target: nat, from: nat, err: bool): (r: World)
    requires Good(w)
    ensures Fine(w, r)
    decreases Budget(w.sups), |LiveSet(w.actors)|, 0, 0
  {
    if !Live(w.actors, target) then w
    else if w.actors[target].trapExit then
      SendFine(w, Exit(target, from, err));
      Send(w, Exit(target, from, err))
    else
      KillFine(w, target);
      var k := Kill(w, target);
      var r := NotifyExit(k, target, err);
      FineTrans(w, k, r);
      r
  }

  /** `actor_notify_exit`: supervisor first, then monitors, then links. */
  function NotifyExit(w: World, a: nat, err: bool): (r: World)
    requires Good(w) && a in w.actors && !w.actors[a].alive
    ensures Fine(w, r)
    decreases Budget(w.sups), |LiveSet(w.actors)|, 3, 0
  {
    var w1 := TellSupervisor(w, a, err);
    DetachFine(w1, a);
    var w2 := Detach(w1, a);
    var w3 := TellMonitors(w2, w1.actors[a].monitors, a, err);
    var r := TellLinks(w3, w1.actors[a].links, a, err);
    FineTrans(w, w1, w2);
    FineTrans(w, w2, w3);
    FineTrans(w, w3, r);
    r
  }

  /** The supervisor part of `actor_notify_exit`. */
  function TellSupervisor(w: World, a: nat, err: bool): (r: World)
    requires Good(w) && a in w.actors && !w.actors[a].alive
    ensures Fine(w, r)
    decreases Budget(w.sups), |LiveSet(w.actors)|, 2, 0
  {
    var s := FindSup(w.sups, a);
    if s < 0 then w
    else if err then HandleExit(w, s, a)
    else if w.sups[s].isDynamic then
      var i := ChildIndex(w.sups[s].childIds, a);
      if w.sups[s].childRestart[i].Permanent? then w
      else
        var sup := w.sups[s];
        SetSupFine(w, s, RemoveChild(w, s, i).sups[s]);
        RemoveChild(w, s, i)
    else w
  }

  function TellMonitors(w: World, ms: seq<nat>, a: nat, err: bool): (r: World)
    requires Good(w)
    ensures Fine(w, r) && r == w.(sent := r.sent)
    decreases |ms|
  {
    if ms == [] then w
    else
      SendFine(w, Down(ms[0], a, err));
      var w1 := if Live(w.actors, ms[0]) then Send(w, Down(ms[0], a, err)) else w;
      TellMonitors(w1, ms[1..], a, err)
  }

  /** One linked actor: an error is an exit signal, a normal end only a message to those
  that trap. */
  function TellLink(w: World, link: nat, a: nat, err: bool): (r: World)
    requires Good(w)
    ensures Fine(w, r)
    decreases Budget(w.sups), |LiveSet(w.actors)|, 1, 0
  {
    if err then ExitSignal(w, link, a, true)
    else if Live(w.actors, link) && w.actors[link].trapExit then
      SendFine(w, Exit(link, a, false));
      Send(w, Exit(link, a, false))
    else w
  }

  function TellLinks(w: World, links: seq<nat>, a: nat, err: bool): (r: World)
    requires Good(w)
    ensures Fine(w, r)
    decreases Budget(w.sups), |LiveSet(w.actors)|, 2, |links|
  {
    if links == [] then w
    else
      var w1 := TellLink(w, links[0], a, err);
      var r := TellLinks(w1, links[1..], a, err);
      FineTrans(w, w1, r);
      r
  }

  /** `supervisor_handle_exit`. */
  function HandleExit(w: World, s: nat, dead: nat): (r: World)
    requires Good(w) && s < |w.sups|
    ensures Fine(w, r)
    decreases Budget(w.sups), |LiveSet(w.actors)|, 1, 0
  {
    var sup := w.sups[s];
    var i := ChildIndex(sup.childIds, dead);
    if sup.restartCount >= SUP_MAX_RESTARTS || i < 0 then w
    else if sup.isDynamic && sup.childRestart[i].Temporary? then
      SetSupFine(w, s, RemoveChild(w, s, i).sups[s]);
      RemoveChild(w, s, i)
    else
      var sup1 := sup.(restartCount := sup.restartCount + 1);
      SetSupFine(w, s, sup1);
      Restart(SetSup(w, s, sup1), s, i)
  }

  /** The restart strategies; the restart has been counted. */
  function Restart(w: World, s: nat, i: nat): (r: World)
    requires Good(w) && s < |w.sups|
    ensures Good(r) && Evolves(w, r) && Budget(r.sups) <= Budget(w.sups)
    decreases Budget(w.sups), |LiveSet(w.actors)|, 5, 0
  {
    match w.sups[s].strategy
    case OneForOne =>
      SpawnFine(w, s, i);
      Spawn(w, s, i)
    case OneForAll => Respawn(Shutdown(w, s, 0, i), s, 0)
    case RestForOne => Respawn(Shutdown(w, s, i + 1, -1), s, i)
  }

  /** Kills the live children from slot `i` on, except slot `skip`, without an error. */
  function Shutdown(w: World, s: nat, i: nat, skip: int): (r: World)
    requires Good(w) && s < |w.sups|
    ensures Fine(w, r)
    decreases Budget(w.sups), |LiveSet(w.actors)|, 4, if i < |w.sups[s].childIds| then |w.sups[s].childIds| - i else 0
  {
    if i >= |w.sups[s].childIds| then w
    else if i == skip || !Live(w.actors, w.sups[s].childIds[i]) then Shutdown(w, s, i + 1, skip)
    else
      var child := w.sups[s].childIds[i];
      KillFine(w, child);
      var k := Kill(w, child);
      var w1 := NotifyExit(k, child, false);
      FineTrans(w, k, w1);
      var r := Shutdown(w1, s, i + 1, skip);
      FineTrans(w, w1, r);
      r
  }

  /** Spawns into every child slot from `i` on. */
  function Respawn(w: World, s: nat, i: nat): (r: World)
    requires Good(w) && s < |w.sups|
    ensures Good(r) && Evolves(w, r) && Budget(r.sups) == Budget(w.sups)
    decreases |w.sups[s].childIds| - i
  {
    if i >= |w.sups[s].childIds| then w
    else
      SpawnFine(w, s, i);
      Respawn(Spawn(w, s, i), s, i + 1)
  }

  /** `actor_finish`: false when the actor is already dead. */
  function Finish(w: World, a: nat, err: bool): (r: World)
    requires Good(w)
    ensures Fine(w, r)
    ensures !Live(r.actors, a)
    ensures Live(w.actors, a) ==> a in r.deaths && a !in w.deaths
  {
    if !Live(w.actors, a) then w
    else
      KillFine(w, a);
      var k := Kill(w, a);
      var r := NotifyExit(k, a, err);
      FineTrans(w, k, r);
      assert k.deaths[|w.deaths|] == a && r.deaths[|w.deaths|] == a;
      r
  }
}
