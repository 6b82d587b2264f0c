/** A send or a receive that runs while the other threads pause, wherever they stand
(bootstrap/channel.c:107-178). */
module RingAlone {
  import opened Bits
  import opened Options
  import opened Ring

  /** The state after `n` more accesses of thread `t` alone. */
  ghost function Alone<V>(s: State<V>, t: Tid, n: nat): (r: Option<State<V>>) {
    if n == 0 then Some(s)
    else
      match Alone(s, t, n - 1)
      case None => None
      case Some(r) => if r.mem.Shape() then Step(r, t, Continue(false)) else None
  }

  /** A thread at `pc` that runs alone comes to `pc'` with memory `m'`. */
  ghost predicate Comes<V>(m: Mem<V>, pcs: map<Tid, Pc<V>>, t: Tid, pc: Pc<V>, m': Mem<V>, pc': Pc<V>) {
    Reaches(State(m, pcs[t := pc]), t, State(m', pcs[t := pc']))
  }

  ghost predicate Reaches<V>(s: State<V>, t: Tid, r: State<V>) {
    exists n: nat :: Arrives(s, t, n, r)
  }

  ghost predicate Arrives<V>(s: State<V>, t: Tid, n: nat, r: State<V>) {
    Alone(s, t, n) == Some(r)
  }

  lemma {:induction false} AloneSum<V>(s: State<V>, t: Tid, n: nat, k: nat)
    requires Alone(s, t, n).Some?
    ensures Alone(s, t, n + k) == Alone(Alone(s, t, n).value, t, k)
  {
    hide Step, Slot;
    if k > 0 {
      AloneSum(s, t, n, k - 1);
    }
  }

  lemma ComesTrans<V>(m: Mem<V>, pcs: map<Tid, Pc<V>>, t: Tid, pc: Pc<V>, m1: Mem<V>, pc1: Pc<V>,
                      m2: Mem<V>, pc2: Pc<V>)
    requires Comes(m, pcs, t, pc, m1, pc1) && Comes(m1, pcs, t, pc1, m2, pc2)
    ensures Comes(m, pcs, t, pc, m2, pc2)
  {
    hide Alone;
    var n: nat :| Arrives(State(m, pcs[t := pc]), t, n, State(m1, pcs[t := pc1]));
    var k: nat :| Arrives(State(m1, pcs[t := pc1]), t, k, State(m2, pcs[t := pc2]));
    AloneSum(State(m, pcs[t := pc]), t, n, k);
    assert Arrives(State(m, pcs[t := pc]), t, n + k, State(m2, pcs[t := pc2]));
  }

  lemma OneAccess<V>(m: Mem<V>, pcs: map<Tid, Pc<V>>, t: Tid, pc: Pc<V>)
    requires m.Shape() && !pc.Idle?
    ensures var (m', pc') := Advance(m, t, pc, false); Comes(m, pcs, t, pc, m', pc')
  {
    hide Advance, Slot;
    var s := State(m, pcs[t := pc]);
    var (m', pc') := Advance(m, t, pc, false);
    assert pcs[t := pc][t := pc'] == pcs[t := pc'];
    assert Alone(s, t, 0) == Some(s);
    assert Alone(s, t, 1) == Some(State(m', pcs[t := pc']));
    assert Arrives(s, t, 1, State(m', pcs[t := pc']));
  }

  /** The next enqueue position is free: its slot has been released, or was never used. */
  predicate HasRoom<V>(m: Mem<V>) {
    m.enq < m.cap || m.enq - m.cap in m.released
  }

  function Sent<V>(m: Mem<V>, t: Tid, v: V): (r: Mem<V>)
    requires m.Shape()
  {
    m.ClaimSend(t, v).Store(m.enq, Some(v)).Publish(m.enq).Count(m.enq)
  }

  lemma SendFromFresh<V>(m: Mem<V>, pcs: map<Tid, Pc<V>>, t: Tid, v: V)
    requires MemOk(m)
    ensures if HasRoom(m) then Comes(m, pcs, t, SendAt(v, m.enq), Sent(m, t, v), Idle)
            else Comes(m, pcs, t, SendAt(v, m.enq), m, Idle)
  {
    hide Slot, Comes, SlotsOk, ReceiptsOk;
    var pos := m.enq;
    SequenceMeaning(m, pos);
    var sq := m.seqs[Slot(pos, m.cap)];
    OneAccess(m, pcs, t, SendAt(v, pos));
    OneAccess(m, pcs, t, SendSaw(v, pos, sq));
    if HasRoom(m) {
      ComesTrans(m, pcs, t, SendAt(v, pos), m, SendSaw(v, pos, sq), m.ClaimSend(t, v), SendClaimed(v, pos));
      FinishSend(m, pcs, t, v);
      ComesTrans(m, pcs, t, SendAt(v, pos), m.ClaimSend(t, v), SendClaimed(v, pos), Sent(m, t, v), Idle);
    } else {
      ComesTrans(m, pcs, t, SendAt(v, pos), m, SendSaw(v, pos, sq), m, Idle);
    }
  }

  lemma FinishSend<V>(m: Mem<V>, pcs: map<Tid, Pc<V>>, t: Tid, v: V)
    requires m.Shape()
    ensures Comes(m.ClaimSend(t, v), pcs, t, SendClaimed(v, m.enq), Sent(m, t, v), Idle)
  {
    hide Slot, Comes;
    var pos := m.enq;
    var m1 := m.ClaimSend(t, v);
    OneAccess(m1, pcs, t, SendClaimed(v, pos));
    var m2 := m1.Store(pos, Some(v));
    OneAccess(m2, pcs, t, SendWritten(v, pos));
    var m3 := m2.Publish(pos);
    OneAccess(m3, pcs, t, SendPublished(pos));
    ComesTrans(m1, pcs, t, SendClaimed(v, pos), m2, SendWritten(v, pos), m3, SendPublished(pos));
    ComesTrans(m1, pcs, t, SendClaimed(v, pos), m3, SendPublished(pos), Sent(m, t, v), Idle);
  }

  /** A send finishes when it runs alone, even with an outdated position: it is accepted
  exactly if the ring has room, whatever the other threads have left unfinished. */
  lemma SendAlone<V>(s: State<V>, t: Tid)
    requires Inv(s) && t in s.pcs && s.pcs[t].SendAt?
    ensures var v, m' := s.pcs[t].v, if HasRoom(s.mem) then Sent(s.mem, t, s.pcs[t].v) else s.mem;
            && Comes(s.mem, s.pcs, t, s.pcs[t], m', Idle)
            && m'.sent == s.mem.sent + if HasRoom(s.mem) then [v] else []
  {
    hide Slot, Comes, SlotsOk, ReceiptsOk, SendsOwned, RecvsOwned;
    var m, v, pos := s.mem, s.pcs[t].v, s.pcs[t].pos;
    assert PcOk(m, t, s.pcs[t]);
    SendFromFresh(m, s.pcs, t, v);
    if pos < m.enq {
      SequenceMeaning(m, pos);
      var sq := m.seqs[Slot(pos, m.cap)];
      OneAccess(m, s.pcs, t, SendAt(v, pos));
      OneAccess(m, s.pcs, t, SendSaw(v, pos, sq));
      ComesTrans(m, s.pcs, t, SendAt(v, pos), m, SendSaw(v, pos, sq), m, SendAt(v, m.enq));
      ComesTrans(m, s.pcs, t, SendAt(v, pos), m, SendAt(v, m.enq), if HasRoom(m) then Sent(m, t, v) else m, Idle);
    }
  }

  function Received<V>(m: Mem<V>, t: Tid): (r: Mem<V>)
    requires m.Shape() && m.deq < |m.sent|
  {
    m.ClaimRecv(t).Store(m.deq, None).Release(m.deq).Return(m.deq, Some(m.sent[m.deq]))
  }

  lemma RecvFromFresh<V>(m: Mem<V>, pcs: map<Tid, Pc<V>>, t: Tid)
    requires MemOk(m)
    ensures if m.deq in m.published then Comes(m, pcs, t, RecvAt(m.deq), Received(m, t), Idle)
            else Comes(m, pcs, t, RecvAt(m.deq), m, Idle)
  {
    hide Slot, Comes, SlotsOk, ReceiptsOk;
    var pos := m.deq;
    NextMessage(m);
    SequenceMeaning(m, pos);
    var sq := m.seqs[Slot(pos, m.cap)];
    OneAccess(m, pcs, t, RecvAt(pos));
    OneAccess(m, pcs, t, RecvSaw(pos, sq));
    if pos in m.published {
      ComesTrans(m, pcs, t, RecvAt(pos), m, RecvSaw(pos, sq), m.ClaimRecv(t), RecvClaimed(pos));
      FinishRecv(m, pcs, t);
      ComesTrans(m, pcs, t, RecvAt(pos), m.ClaimRecv(t), RecvClaimed(pos), Received(m, t), Idle);
    } else {
      ComesTrans(m, pcs, t, RecvAt(pos), m, RecvSaw(pos, sq), m, Idle);
    }
  }

  lemma NextMessage<V>(m: Mem<V>)
    requires MemOk(m)
    ensures m.deq !in m.released
    ensures m.deq in m.published ==> m.deq < |m.sent| && m.vals[Slot(m.deq, m.cap)] == Some(m.sent[m.deq])
  {
  }

  lemma FinishRecv<V>(m: Mem<V>, pcs: map<Tid, Pc<V>>, t: Tid)
    requires m.Shape() && m.deq < |m.sent| && m.vals[Slot(m.deq, m.cap)] == Some(m.sent[m.deq])
    ensures Comes(m.ClaimRecv(t), pcs, t, RecvClaimed(m.deq), Received(m, t), Idle)
  {
    hide Slot, Comes;
    var pos, got := m.deq, Some(m.sent[m.deq]);
    var m1 := m.ClaimRecv(t);
    OneAccess(m1, pcs, t, RecvClaimed(pos));
    OneAccess(m1, pcs, t, RecvTaken(pos, got));
    var m2 := m1.Store(pos, None);
    OneAccess(m2, pcs, t, RecvCleared(pos, got));
    var m3 := m2.Release(pos);
    OneAccess(m3, pcs, t, RecvReleased(pos, got));
    ComesTrans(m1, pcs, t, RecvClaimed(pos), m1, RecvTaken(pos, got), m2, RecvCleared(pos, got));
    ComesTrans(m1, pcs, t, RecvClaimed(pos), m2, RecvCleared(pos, got), m3, RecvReleased(pos, got));
    ComesTrans(m1, pcs, t, RecvClaimed(pos), m3, RecvReleased(pos, got), Received(m, t), Idle);
  }

  /** A receive finishes when it runs alone: it returns the message of the next position
  exactly if that has been published. */
  lemma RecvAlone<V>(s: State<V>, t: Tid)
    requires Inv(s) && t in s.pcs && s.pcs[t].RecvAt?
    ensures s.mem.deq in s.mem.published ==> s.mem.deq < |s.mem.sent|
    ensures var m' := if s.mem.deq in s.mem.published then Received(s.mem, t) else s.mem;
            && Comes(s.mem, s.pcs, t, s.pcs[t], m', Idle)
            && m'.receipts == s.mem.receipts +
                 if s.mem.deq in s.mem.published then [Receipt(s.mem.deq, Some(s.mem.sent[s.mem.deq]))] else []
  {
    hide Slot, Comes, SlotsOk, ReceiptsOk, SendsOwned, RecvsOwned;
    var m, pos := s.mem, s.pcs[t].pos;
    NextMessage(m);
    assert PcOk(m, t, s.pcs[t]);
    RecvFromFresh(m, s.pcs, t);
    if pos < m.deq {
      SequenceMeaning(m, pos);
      var sq := m.seqs[Slot(pos, m.cap)];
      OneAccess(m, s.pcs, t, RecvAt(pos));
      OneAccess(m, s.pcs, t, RecvSaw(pos, sq));
      ComesTrans(m, s.pcs, t, RecvAt(pos), m, RecvSaw(pos, sq), m, RecvAt(m.deq));
      ComesTrans(m, s.pcs, t, RecvAt(pos), m, RecvAt(m.deq), if m.deq in m.published then Received(m, t) else m, Idle);
    }
  }
}
