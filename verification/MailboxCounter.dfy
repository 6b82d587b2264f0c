/** The message counter of an actor mailbox, which a receive trusts before it looks at the
ring (bootstrap/actor.c:155-228). */
module MailboxCounter {
  import opened Bits
  import opened Sets
  import opened Options
  import opened Ring

  // ----- the counter against the ring -----

  /** The published positions that no receive has claimed. */
  ghost function Buffered<V>(m: Mem<V>): (r: set<nat>) {
    set p: nat | p in m.published && m.deq <= p
  }

  /** The threads that have published a message and not yet added to the counter. */
  ghost function Unbumped<V>(pcs: map<Tid, Pc<V>>): (r: set<Tid>) {
    set t | t in pcs && pcs[t].SendPublished?
  }

  predicate Taking<V>(pc: Pc<V>) {
    pc.RecvClaimed? || pc.RecvTaken? || pc.RecvCleared? || pc.RecvReleased?
  }

  /** The threads that have claimed a message and not yet taken it off the counter. */
  ghost function Takers<V>(pcs: map<Tid, Pc<V>>): (r: set<Tid>) {
    set t | t in pcs && Taking(pcs[t])
  }

  lemma UnbumpedCount<V>(s: State<V>)
    requires Inv(s)
    ensures |Unbumped(s.pcs)| == |s.mem.published - s.mem.counted|
  {
    hide Slot, SlotsOk, ReceiptsOk, RecvsOwned;
    var m := s.mem;
    var pos := map t | t in Unbumped(s.pcs) :: s.pcs[t].pos;
    forall t, u | t in pos && u in pos && pos[t] == pos[u] ensures t == u {
      assert PcOk(m, t, s.pcs[t]) && PcOk(m, u, s.pcs[u]);
    }
    InjectiveImage(pos);
    forall p | p in m.published - m.counted ensures p in pos.Values {
      assert pos[m.sentBy[p]] == p;
    }
    forall t | t in pos ensures pos[t] in m.published - m.counted {
      assert PcOk(m, t, s.pcs[t]);
    }
    assert pos.Values == m.published - m.counted;
    assert pos.Keys == Unbumped(s.pcs);
  }

  lemma TakerCount<V>(s: State<V>)
    requires Inv(s)
    ensures |Takers(s.pcs)| == |Interval(0, s.mem.deq) - s.mem.discounted|
  {
    hide Slot, SlotsOk, ReceiptsOk, SendsOwned;
    var m := s.mem;
    var pos := map t | t in Takers(s.pcs) :: s.pcs[t].pos;
    forall t, u | t in pos && u in pos && pos[t] == pos[u] ensures t == u {
      TakerHolds(s, t);
      TakerHolds(s, u);
    }
    InjectiveImage(pos);
    TakenPositions(s, pos);
    assert pos.Keys == Takers(s.pcs);
  }

  lemma TakerHolds<V>(s: State<V>, t: Tid)
    requires Inv(s) && t in Takers(s.pcs)
    ensures var p := s.pcs[t].pos; p < s.mem.deq && p !in s.mem.discounted && s.mem.takenBy[p] == t
  {
    hide Slot, SlotsOk, SendsOwned, RecvsOwned;
    assert PcOk(s.mem, t, s.pcs[t]);
  }

  lemma TakenPositions<V>(s: State<V>, pos: map<Tid, nat>)
    requires Inv(s) && pos.Keys == Takers(s.pcs) && forall t :: t in pos ==> pos[t] == s.pcs[t].pos
    ensures pos.Values == Interval(0, s.mem.deq) - s.mem.discounted
  {
    hide Slot, SlotsOk, ReceiptsOk, SendsOwned, PcOk;
    var m := s.mem;
    forall p | p in Interval(0, m.deq) - m.discounted ensures p in pos.Values {
      assert pos[m.takenBy[p]] == p;
    }
    forall t | t in pos ensures pos[t] in Interval(0, m.deq) - m.discounted {
      TakerHolds(s, t);
    }
  }

  /** In every reachable state the counter misses the number of buffered messages by
  exactly the sends and the receives that stand before their counter update. */
  lemma CounterGap<V>(s: State<V>)
    requires Inv(s)
    ensures |Buffered(s.mem)| == s.mem.count + |Unbumped(s.pcs)| - |Takers(s.pcs)|
  {
    UnbumpedCount(s);
    TakerCount(s);
    hide Slot, SlotsOk, PcOk, SendsOwned, RecvsOwned, ReceiptsOk, Unbumped, Takers;
    CounterWord(s);
    BufferedPart(s.mem);
    PartSizes(s.mem.counted, s.mem.published);
    PartSizes(s.mem.discounted, Interval(0, s.mem.deq));
  }

  lemma PartSizes(a: set<nat>, b: set<nat>)
    requires a <= b
    ensures |b| == |a| + |b - a|
  {
    assert b == a + (b - a);
  }

  lemma CounterWord<V>(s: State<V>)
    requires Inv(s)
    ensures s.mem.count == |s.mem.counted| - |s.mem.discounted|
    ensures s.mem.counted <= s.mem.published && s.mem.discounted <= Interval(0, s.mem.deq)
  {
    hide Slot, SlotsOk, PcOk, SendsOwned, RecvsOwned, HasReceipt;
  }

  lemma BufferedPart<V>(m: Mem<V>)
    requires HistoryOk(m)
    ensures |m.published| == m.deq + |Buffered(m)|
  {
    assert m.published == Interval(0, m.deq) + Buffered(m);
  }

  /** The same account in positions: when everything published has been released. */
  lemma AllReleasedExactly<V>(s: State<V>)
    requires Inv(s)
    ensures s.mem.published == s.mem.released <==>
              s.mem.count + |s.mem.published - s.mem.counted| == |s.mem.released - s.mem.discounted|
  {
    hide Slot, SlotsOk, PcOk, SendsOwned, RecvsOwned, HasReceipt;
    var m := s.mem;
    assert m.published == m.counted + (m.published - m.counted);
    assert m.released == m.discounted + (m.released - m.discounted);
    assert m.released <= m.published;
    SubsetSize(m.released, m.published);
  }

  /** A poll that finds the counter not positive answers "nothing there".  The answer is
  right exactly if the counter and the sends before their counter update sum up to the
  receives before theirs; with one receiver, which is not receiving while it polls, exactly
  if the counter and those sends sum up to zero. */
  lemma EarlyAnswerExact<V>(s: State<V>, t: Tid)
    requires Inv(s) && t in s.pcs && s.pcs[t].Idle? && s.mem.count <= 0
    ensures Step(s, t, Poll) == Some(s)
    ensures Buffered(s.mem) == {} <==> s.mem.count + |Unbumped(s.pcs)| == |Takers(s.pcs)|
    ensures Takers(s.pcs) == {} ==> (Buffered(s.mem) == {} <==> s.mem.count + |Unbumped(s.pcs)| == 0)
    ensures Unbumped(s.pcs) == {} ==> Buffered(s.mem) == {}
  {
    CounterGap(s);
  }

  // ----- a run in which the answer is wrong -----

  ghost predicate Reachable<V(!new)>(s: State<V>) {
    exists states: seq<State<V>>, labels: seq<Label<V>> ::
      IsRun(states, labels) && states[|labels|] == s
  }

  lemma ReachableInv<V(!new)>(s: State<V>)
    requires Reachable(s)
    ensures Inv(s)
  {
    var states: seq<State<V>>, labels: seq<Label<V>> :| IsRun(states, labels) && states[|labels|] == s;
    RunKeepsInv(states, labels, |labels|);
  }

  lemma OneMore<V(!new)>(s: State<V>, t: Tid, c: Choice<V>)
    requires Reachable(s) && s.mem.Shape() && Step(s, t, c).Some?
    ensures Reachable(Step(s, t, c).value)
  {
    hide Init, Step, Slot;
    var states: seq<State<V>>, labels: seq<Label<V>> :| IsRun(states, labels) && states[|labels|] == s;
    var s' := Step(s, t, c).value;
    var states', labels' := states + [s'], labels + [(t, c)];
    forall i | 0 <= i < |labels'| ensures Leads(states'[i], labels'[i], states'[i + 1]) {
      assert i < |labels| ==> Leads(states[i], labels[i], states[i + 1]);
    }
    assert IsRun(states', labels');
  }

  /** Thread `t`, everybody else being as in `pcs`, makes its next access. */
  lemma Access<V(!new)>(m: Mem<V>, pcs: map<Tid, Pc<V>>, t: Tid, pc: Pc<V>)
    requires m.Shape() && !pc.Idle? && Reachable(State(m, pcs[t := pc]))
    ensures var (m', pc') := Advance(m, t, pc, false); Reachable(State(m', pcs[t := pc']))
  {
    hide Reachable, Slot, Advance;
    OneMore(State(m, pcs[t := pc]), t, Continue(false));
    assert pcs[t := pc][t := Advance(m, t, pc, false).1] == pcs[t := Advance(m, t, pc, false).1];
  }

  /** A send that nobody disturbs, up to the publication of its message. */
  lemma SendUndisturbed<V(!new)>(s: State<V>, t: Tid, v: V) returns (r: State<V>)
    requires Reachable(s) && s.mem.Shape() && t in s.pcs && s.pcs[t].Idle? && !s.mem.closed
    requires s.mem.seqs[Slot(s.mem.enq, s.mem.cap)] == s.mem.enq
    ensures Reachable(r) && r.pcs == s.pcs[t := SendPublished(s.mem.enq)]
    ensures r.mem == s.mem.ClaimSend(t, v).Store(s.mem.enq, Some(v)).Publish(s.mem.enq)
  {
    hide Reachable, Slot;
    var m, pos := s.mem, s.mem.enq;
    OneMore(s, t, BeginSend(v));
    Access(m, s.pcs, t, SendOpen(v));
    Access(m, s.pcs, t, SendAt(v, pos));
    Access(m, s.pcs, t, SendSaw(v, pos, pos));
    m := m.ClaimSend(t, v);
    Access(m, s.pcs, t, SendClaimed(v, pos));
    m := m.Store(pos, Some(v));
    Access(m, s.pcs, t, SendWritten(v, pos));
    r := State(m.Publish(pos), s.pcs[t := SendPublished(pos)]);
  }

  /** A receive that nobody disturbs. */
  lemma ReceiveUndisturbed<V(!new)>(s: State<V>, t: Tid) returns (r: State<V>)
    requires Reachable(s) && s.mem.Shape() && t in s.pcs && s.pcs[t].Idle? && s.mem.count > 0
    requires s.mem.seqs[Slot(s.mem.deq, s.mem.cap)] == s.mem.deq + 1
    ensures var m, got := s.mem, s.mem.vals[Slot(s.mem.deq, s.mem.cap)];
            && Reachable(r) && r.pcs == s.pcs
            && r.mem == m.ClaimRecv(t).Store(m.deq, None).Release(m.deq).Return(m.deq, got)
  {
    hide Reachable, Slot;
    var m, pos, got := s.mem, s.mem.deq, s.mem.vals[Slot(s.mem.deq, s.mem.cap)];
    OneMore(s, t, Poll);
    Access(m, s.pcs, t, RecvOpen);
    Access(m, s.pcs, t, RecvAt(pos));
    Access(m, s.pcs, t, RecvSaw(pos, pos + 1));
    m := m.ClaimRecv(t);
    Access(m, s.pcs, t, RecvClaimed(pos));
    Access(m, s.pcs, t, RecvTaken(pos, got));
    m := m.Store(pos, None);
    Access(m, s.pcs, t, RecvCleared(pos, got));
    m := m.Release(pos);
    Access(m, s.pcs, t, RecvReleased(pos, got));
    r := State(m.Return(pos, got), s.pcs[t := Idle]);
    assert s.pcs[t := Idle] == s.pcs;
  }

  function EmptyRing(): (s: State<int>) {
    State(Mem(2, false, 0, 0, [0, 1], [None, None], 0, [], [], [], {}, {}, {}, {}, []),
          map[0 := Idle, 1 := Idle, 2 := Idle])
  }

  lemma EmptyRingReachable()
    ensures Reachable(EmptyRing()) && EmptyRing().mem.Shape()
  {
    assert Pow2(1) == 2;
    assert IsRun([EmptyRing()], []);
  }

  /** Thread 0 publishes and stalls before the counter; thread 1 sends and returns;
  thread 2 receives the first message and polls again.  It is told that nothing is there,
  although the second message lies in its slot and its send has finished. */
  lemma MissedMessage() returns (s: State<int>)
    ensures Reachable(s) && Inv(s) && s.pcs.Keys == {0, 1, 2} && s.pcs[1].Idle? && s.pcs[2].Idle?
    ensures s.mem.count == 0 && Step(s, 2, Poll) == Some(s)
    ensures s.mem.enq == 2 && Holds(s, 1, InSlot) && 1 in s.mem.counted
  {
    EmptyRingReachable();
    hide Reachable, Inv;
    SlotOfSmall(0, 2);
    SlotOfSmall(1, 2);
    hide Slot;
    s := SendUndisturbed(EmptyRing(), 0, 10);
    s := SendUndisturbed(s, 1, 20);
    OneMore(s, 1, Continue(false));
    s := Step(s, 1, Continue(false)).value;
    s := ReceiveUndisturbed(s, 2);
    ReachableInv(s);
    InvHistory(s);
  }

  lemma InvHistory<V>(s: State<V>)
    requires Inv(s)
    ensures HistoryOk(s.mem)
  {
  }
}
