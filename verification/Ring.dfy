/** The bounded multi-producer multi-consumer ring behind channels and actor mailboxes
(bootstrap/channel.c, bootstrap/actor.c). */
module Ring {
  // Every load, compare-and-swap and store of `channel_try_send` and `channel_try_recv` is one
  // step of a transition system over any number of threads; the steps interleave freely.
  // Positions are unbounded counters and memory is sequentially consistent.

  import opened Bits
  import opened Sets
  import opened Options

  type Tid = nat

  /** Where a thread is inside a send or a receive. */
  datatype Pc<V> =
    | Idle
    | SendOpen(v: V)                         // `closed` loaded, and not set
    | SendAt(v: V, pos: nat)                 // enqueue position loaded
    | SendSaw(v: V, pos: nat, sq: nat)       // slot sequence loaded
    | SendClaimed(v: V, pos: nat)            // compare-and-swap won
    | SendWritten(v: V, pos: nat)            // value stored in the slot
    | SendPublished(pos: nat)                // sequence stored, counter not yet bumped
    | RecvOpen                               // counter loaded, and positive
    | RecvAt(pos: nat)                       // dequeue position loaded
    | RecvSaw(pos: nat, sq: nat)
    | RecvClaimed(pos: nat)
    | RecvTaken(pos: nat, got: Option<V>)    // value copied out
    | RecvCleared(pos: nat, got: Option<V>)  // slot value reset to NULL
    | RecvReleased(pos: nat, got: Option<V>) // sequence stored, counter not yet dropped

  /** One completed receive: the position it claimed and the value it returned. */
  datatype Receipt<V> = Receipt(pos: nat, got: Option<V>)

  /** The shared words (`cap` .. `count`) and the history of the run.

  `sent[p]` is the value offered by the producer that claimed position `p`;
  `published` and `released` are the positions whose sequence store has happened
  on the producer and consumer side; `sentBy[p]` and `takenBy[p]` are the threads
  that won the two claims of `p`; `counted`/`discounted` are the positions already
  reflected in `count`; `receipts` logs the returns of receives in order. */
  datatype Mem<V> = Mem(
    cap: nat,
    closed: bool,
    enq: nat,
    deq: nat,
    seqs: seq<nat>,
    vals: seq<Option<V>>,
    count: int,
    sent: seq<V>,
    sentBy: seq<Tid>,
    takenBy: seq<Tid>,
    published: set<nat>,
    released: set<nat>,
    counted: set<nat>,
    discounted: set<nat>,
    receipts: seq<Receipt<V>>)
  {
    ghost predicate Shape() {
      cap >= 2 && IsPow2(cap) && |seqs| == cap && |vals| == cap
    }

    /** `p` is the most recently claimed position of its slot. */
    predicate Latest(p: nat) {
      p < enq <= p + cap
    }

    /** The sequence word the slot of a latest position must hold. */
    function Expected(p: nat): (r: nat) {
      if p !in published then p
      else if p !in released then p + 1
      else p + cap
    }

    // The effect of each shared access on memory and history.

    function ClaimSend(t: Tid, v: V): (m: Mem<V>) {
      this.(enq := enq + 1, sent := sent + [v], sentBy := sentBy + [t])
    }

    function Store(p: nat, x: Option<V>): (m: Mem<V>)
      requires Shape()
    {
      this.(vals := vals[Slot(p, cap) := x])
    }

    function Publish(p: nat): (m: Mem<V>)
      requires Shape()
    {
      this.(seqs := seqs[Slot(p, cap) := p + 1], published := published + {p})
    }

    function Count(p: nat): (m: Mem<V>) {
      this.(count := count + 1, counted := counted + {p})
    }

    function ClaimRecv(t: Tid): (m: Mem<V>) {
      this.(deq := deq + 1, takenBy := takenBy + [t])
    }

    function Release(p: nat): (m: Mem<V>)
      requires Shape()
    {
      this.(seqs := seqs[Slot(p, cap) := p + cap], released := released + {p})
    }

    function Return(p: nat, got: Option<V>): (m: Mem<V>) {
      this.(count := count - 1, discounted := discounted + {p}, receipts := receipts + [Receipt(p, got)])
    }
  }

  datatype State<V> = State(mem: Mem<V>, pcs: map<Tid, Pc<V>>)

  // ----- initial state and steps -----

  ghost predicate Init<V>(s: State<V>) {
    var m := s.mem;
    && m.Shape()
    && !m.closed && m.enq == 0 && m.deq == 0 && m.count == 0
    && (forall i :: 0 <= i < m.cap ==> m.seqs[i] == i)
    && (forall i :: 0 <= i < m.cap ==> m.vals[i] == None)
    && m.sent == [] && m.sentBy == [] && m.takenBy == [] && m.receipts == []
    && m.published == {} && m.released == {} && m.counted == {} && m.discounted == {}
    && (forall t :: t in s.pcs ==> s.pcs[t] == Idle)
  }

  /** What a thread does next: `spurious` lets a weak compare-and-swap fail although
  the word still holds the expected position.  A channel receives by `BeginRecv`, a
  mailbox by `Poll`, which loads the counter first and answers "nothing there" unless it
  is positive. */
  datatype Choice<V> =
    | Close
    | BeginSend(v: V)
    | BeginRecv
    | Poll
    | Continue(spurious: bool)

  /** The transition function; `None` when the choice is not available to `t`. */
  function Step<V>(s: State<V>, t: Tid, c: Choice<V>): (r: Option<State<V>>)
    requires s.mem.Shape()
  {
    if t !in s.pcs then None
    else
      var m := s.mem;
      match c
      case Close =>
        if s.pcs[t].Idle? then Some(State(m.(closed := true), s.pcs)) else None
      case BeginSend(v) =>
        if s.pcs[t].Idle? then Some(State(m, if m.closed then s.pcs else s.pcs[t := SendOpen(v)])) else None
      case BeginRecv =>
        if s.pcs[t].Idle? then Some(State(m, s.pcs[t := RecvAt(m.deq)])) else None
      case Poll =>
        if s.pcs[t].Idle? then Some(State(m, if m.count <= 0 then s.pcs else s.pcs[t := RecvOpen])) else None
      case Continue(spurious) =>
        if s.pcs[t].Idle? then None
        else
          var (m', pc') := Advance(m, t, s.pcs[t], spurious);
          Some(State(m', s.pcs[t := pc']))
  }

  /** One access of a running operation. */
  function Advance<V>(m: Mem<V>, t: Tid, pc: Pc<V>, spurious: bool): (r: (Mem<V>, Pc<V>))
    requires m.Shape() && !pc.Idle?
  {
    match pc
    case SendOpen(v) => (m, SendAt(v, m.enq))
    case SendAt(v, pos) => (m, SendSaw(v, pos, m.seqs[Slot(pos, m.cap)]))
    case SendSaw(v, pos, sq) =>
      if sq == pos then
        if m.enq == pos && !spurious then (m.ClaimSend(t, v), SendClaimed(v, pos))
        else (m, SendAt(v, m.enq))
      else if sq < pos then (m, Idle)
      else (m, SendAt(v, m.enq))
    case SendClaimed(v, pos) => (m.Store(pos, Some(v)), SendWritten(v, pos))
    case SendWritten(v, pos) => (m.Publish(pos), SendPublished(pos))
    case SendPublished(pos) => (m.Count(pos), Idle)
    case RecvOpen => (m, RecvAt(m.deq))
    case RecvAt(pos) => (m, RecvSaw(pos, m.seqs[Slot(pos, m.cap)]))
    case RecvSaw(pos, sq) =>
      if sq == pos + 1 then
        if m.deq == pos && !spurious then (m.ClaimRecv(t), RecvClaimed(pos))
        else (m, RecvAt(m.deq))
      else if sq < pos + 1 then (m, Idle)
      else (m, RecvAt(m.deq))
    case RecvClaimed(pos) => (m, RecvTaken(pos, m.vals[Slot(pos, m.cap)]))
    case RecvTaken(pos, got) => (m.Store(pos, None), RecvCleared(pos, got))
    case RecvCleared(pos, got) => (m.Release(pos), RecvReleased(pos, got))
    case RecvReleased(pos, got) => (m.Return(pos, got), Idle)
  }

  // ----- the inductive invariant -----

  ghost predicate HistoryOk<V>(m: Mem<V>) {
    && m.Shape()
    && m.deq <= m.enq == |m.sent| == |m.sentBy|
    && |m.takenBy| == m.deq
    && (forall p: nat :: p in m.published ==> p < m.enq)
    && (forall p: nat :: p in m.released ==> p < m.deq)
    && (forall p: nat :: p < m.deq ==> p in m.published)
    && (forall p: nat :: p + m.cap < m.enq ==> p in m.released)
  }

  ghost predicate SlotsOk<V>(m: Mem<V>)
    requires HistoryOk(m)
  {
    && (forall p: nat :: m.Latest(p) ==> m.seqs[Slot(p, m.cap)] == m.Expected(p))
    && (forall p: nat :: m.enq <= p < m.cap ==> m.seqs[Slot(p, m.cap)] == p)
    && (forall p: nat :: p in m.published && p >= m.deq ==> m.vals[Slot(p, m.cap)] == Some(m.sent[p]))
  }

  ghost predicate HasReceipt<V>(m: Mem<V>, p: nat) {
    exists i :: 0 <= i < |m.receipts| && m.receipts[i].pos == p
  }

  ghost predicate ReceiptsOk<V>(m: Mem<V>)
    requires HistoryOk(m)
  {
    && m.counted <= m.published && m.discounted <= m.released
    && m.count == |m.counted| - |m.discounted|
    && (forall p: nat :: p in m.discounted ==> HasReceipt(m, p))
    && (forall i :: 0 <= i < |m.receipts| ==>
          var r := m.receipts[i];
          r.pos in m.discounted && r.pos < m.deq && r.got == Some(m.sent[r.pos]))
    && (forall i, j :: 0 <= i < j < |m.receipts| ==> m.receipts[i].pos != m.receipts[j].pos)
  }

  ghost predicate MemOk<V>(m: Mem<V>) {
    HistoryOk(m) && SlotsOk(m) && ReceiptsOk(m)
  }

  predicate Writing<V>(pc: Pc<V>, p: nat) {
    (pc.SendClaimed? || pc.SendWritten?) && pc.pos == p
  }

  predicate Reading<V>(pc: Pc<V>, p: nat) {
    (pc.RecvClaimed? || pc.RecvTaken? || pc.RecvCleared?) && pc.pos == p
  }

  /** What a thread's program counter says about the shared state. */
  ghost predicate PcOk<V>(m: Mem<V>, t: Tid, pc: Pc<V>)
    requires HistoryOk(m)
  {
    match pc
    case Idle => true
    case SendOpen(_) => true
    case RecvOpen => true
    case SendAt(_, pos) => pos <= m.enq
    case SendSaw(_, pos, sq) =>
      pos <= m.enq && (sq == pos ==> pos < m.cap || pos - m.cap in m.released)
    case SendClaimed(v, pos) =>
      pos < m.enq && pos !in m.published && m.sentBy[pos] == t && m.sent[pos] == v
    case SendWritten(v, pos) =>
      && pos < m.enq && pos !in m.published && m.sentBy[pos] == t && m.sent[pos] == v
      && m.vals[Slot(pos, m.cap)] == Some(v)
    case SendPublished(pos) =>
      pos in m.published && pos !in m.counted && m.sentBy[pos] == t
    case RecvAt(pos) => pos <= m.deq
    case RecvSaw(pos, sq) => pos <= m.deq && (sq == pos + 1 ==> pos in m.published)
    case RecvClaimed(pos) =>
      && pos < m.deq && pos !in m.released && m.takenBy[pos] == t
      && m.vals[Slot(pos, m.cap)] == Some(m.sent[pos])
    case RecvTaken(pos, got) =>
      pos < m.deq && pos !in m.released && m.takenBy[pos] == t && got == Some(m.sent[pos])
    case RecvCleared(pos, got) =>
      pos < m.deq && pos !in m.released && m.takenBy[pos] == t && got == Some(m.sent[pos])
    case RecvReleased(pos, got) =>
      && pos in m.released && pos !in m.discounted && m.takenBy[pos] == t
      && got == Some(m.sent[pos])
  }

  /** Every position whose send is unfinished is in the hands of its claimant. */
  ghost predicate SendsOwned<V>(m: Mem<V>, pcs: map<Tid, Pc<V>>)
    requires HistoryOk(m)
  {
    && (forall p: nat :: p < m.enq ==> m.sentBy[p] in pcs)
    && (forall p: nat :: p < m.enq && p !in m.published ==> Writing(pcs[m.sentBy[p]], p))
    && (forall p: nat :: p in m.published && p !in m.counted ==> pcs[m.sentBy[p]] == SendPublished(p))
  }

  /** Every position whose receive is unfinished is in the hands of its claimant. */
  ghost predicate RecvsOwned<V>(m: Mem<V>, pcs: map<Tid, Pc<V>>)
    requires HistoryOk(m)
  {
    && (forall p: nat :: p < m.deq ==> m.takenBy[p] in pcs)
    && (forall p: nat :: p < m.deq && p !in m.released ==> Reading(pcs[m.takenBy[p]], p))
    && (forall p: nat :: p in m.released && p !in m.discounted ==>
          pcs[m.takenBy[p]] == RecvReleased(p, Some(m.sent[p])))
  }

  ghost predicate Inv<V>(s: State<V>) {
    && MemOk(s.mem)
    && (forall t :: t in s.pcs ==> PcOk(s.mem, t, s.pcs[t]))
    && SendsOwned(s.mem, s.pcs)
    && RecvsOwned(s.mem, s.pcs)
  }

  // ----- what a sequence word tells a thread that reads it -----

  /** The last claimed position that shares the slot of `p`. */
  ghost function LatestFrom<V>(m: Mem<V>, p: nat): (q: nat)
    requires HistoryOk(m) && p < m.enq
    ensures m.Latest(q) && p <= q && Slot(q, m.cap) == Slot(p, m.cap)
    ensures q != p ==> p in m.released && q >= p + m.cap
    decreases m.enq - p
  {
    if p + m.cap < m.enq then
      SlotPeriodic(p, m.cap);
      LatestFrom(m, p + m.cap)
    else p
  }

  /** For every position up to the enqueue position the slot's sequence word tells
  exactly how far the position and its predecessor one lap earlier have got. */
  lemma SequenceMeaning<V>(m: Mem<V>, p: nat)
    requires MemOk(m) && p <= m.enq
    ensures var sq := m.seqs[Slot(p, m.cap)];
            && (sq < p <==> p >= m.cap && p - m.cap !in m.released)
            && (sq == p <==> (p < m.cap || p - m.cap in m.released) && p !in m.published)
            && (sq == p + 1 <==> p in m.published && p !in m.released)
            && (sq > p + 1 <==> p in m.released)
  {
    hide Slot;
    if p < m.enq {
      var q := LatestFrom(m, p);
      assert m.seqs[Slot(q, m.cap)] == m.Expected(q);
      if p >= m.cap {
        assert p - m.cap in m.released;
      }
    } else if p >= m.cap {
      assert m.Latest(p - m.cap);
      SlotPeriodic(p - m.cap, m.cap);
      assert m.seqs[Slot(p - m.cap, m.cap)] == m.Expected(p - m.cap);
    }
  }

  // ----- every step preserves the invariant -----

  lemma InitEstablishes<V>(s: State<V>)
    requires Init(s)
    ensures Inv(s)
  {
    forall p: nat | p < s.mem.cap ensures Slot(p, s.mem.cap) == p {
      SlotOfSmall(p, s.mem.cap);
    }
  }

  /** An unreleased position owns its slot: no other unreleased or untouched position
  maps to it. */
  lemma Separate<V>(m: Mem<V>, p: nat)
    requires HistoryOk(m) && p < m.enq && p !in m.released
    ensures m.Latest(p)
    ensures forall q: nat :: m.Latest(q) && q != p ==> Slot(q, m.cap) != Slot(p, m.cap)
    ensures forall q: nat :: m.enq <= q < m.cap ==> Slot(q, m.cap) != Slot(p, m.cap)
    ensures forall q: nat :: q < m.enq && q !in m.released && q != p ==> Slot(q, m.cap) != Slot(p, m.cap)
  {
    hide Slot;
    forall q: nat | m.Latest(q) && q != p ensures Slot(q, m.cap) != Slot(p, m.cap) {
      if p < q { SlotsApart(p, q, m.cap); } else { SlotsApart(q, p, m.cap); }
    }
    forall q: nat | m.enq <= q < m.cap ensures Slot(q, m.cap) != Slot(p, m.cap) {
      SlotsApart(p, q, m.cap);
    }
    forall q: nat | q < m.enq && q !in m.released && q != p ensures Slot(q, m.cap) != Slot(p, m.cap) {
      assert m.Latest(q);
    }
  }

  lemma ClaimSendMem<V>(m: Mem<V>, t: Tid, v: V)
    requires MemOk(m) && (m.enq < m.cap || m.enq - m.cap in m.released)
    ensures MemOk(m.ClaimSend(t, v))
  {
    hide Slot;
    var m' := m.ClaimSend(t, v);
    SequenceMeaning(m, m.enq);
    assert m.seqs[Slot(m.enq, m.cap)] == m.enq;
    assert HistoryOk(m');
    forall p: nat | m'.Latest(p) ensures m'.seqs[Slot(p, m'.cap)] == m'.Expected(p) {
      if p != m.enq { assert m.Latest(p); }
    }
  }

  lemma StoreMem<V>(m: Mem<V>, p: nat, x: Option<V>)
    requires MemOk(m) && p < m.enq && p !in m.released
    requires p in m.published && p >= m.deq ==> x == Some(m.sent[p])
    ensures MemOk(m.Store(p, x))
  {
    hide Slot;
    Separate(m, p);
    var m' := m.Store(p, x);
    assert HistoryOk(m');
    forall q: nat | q in m'.published && q >= m'.deq ensures m'.vals[Slot(q, m'.cap)] == Some(m'.sent[q]) {
    }
  }

  lemma PublishMem<V>(m: Mem<V>, p: nat)
    requires MemOk(m) && p < m.enq && p !in m.published
    requires m.vals[Slot(p, m.cap)] == Some(m.sent[p])
    ensures MemOk(m.Publish(p))
  {
    hide Slot;
    Separate(m, p);
    var m' := m.Publish(p);
    assert HistoryOk(m');
    forall q: nat | m'.Latest(q) ensures m'.seqs[Slot(q, m'.cap)] == m'.Expected(q) {
      assert m.Latest(q);
    }
  }

  lemma CountMem<V>(m: Mem<V>, p: nat)
    requires MemOk(m) && p in m.published && p !in m.counted
    ensures MemOk(m.Count(p))
  {
    hide Slot;
  }

  lemma ClaimRecvMem<V>(m: Mem<V>, t: Tid)
    requires MemOk(m) && m.deq in m.published
    ensures MemOk(m.ClaimRecv(t))
  {
    hide Slot;
  }

  lemma ReleaseMem<V>(m: Mem<V>, p: nat)
    requires MemOk(m) && p < m.deq && p !in m.released
    ensures MemOk(m.Release(p))
  {
    hide Slot;
    Separate(m, p);
    var m' := m.Release(p);
    assert HistoryOk(m');
    forall q: nat | m'.Latest(q) ensures m'.seqs[Slot(q, m'.cap)] == m'.Expected(q) {
      assert m.Latest(q);
    }
  }

  lemma ReturnMem<V>(m: Mem<V>, p: nat)
    requires MemOk(m) && p in m.released && p !in m.discounted
    ensures MemOk(m.Return(p, Some(m.sent[p])))
  {
    hide Slot;
    var m' := m.Return(p, Some(m.sent[p]));
    assert HistoryOk(m') && SlotsOk(m');
    hide SlotsOk;
    ReturnReceipts(m, p);
  }

  lemma ReturnReceipts<V>(m: Mem<V>, p: nat)
    requires HistoryOk(m) && ReceiptsOk(m) && p in m.released && p !in m.discounted
    requires HistoryOk(m.Return(p, Some(m.sent[p])))
    ensures ReceiptsOk(m.Return(p, Some(m.sent[p])))
  {
    var m' := m.Return(p, Some(m.sent[p]));
    hide HasReceipt, HistoryOk, Slot;
    forall q: nat | q in m'.discounted ensures HasReceipt(m', q) {
      KeepsReceipt(m, m', q);
    }
    ReceiptAdded(m, p);
  }

  /** The new receipt is right, and differs from the ones before it. */
  lemma ReceiptAdded<V>(m: Mem<V>, p: nat)
    requires HistoryOk(m) && ReceiptsOk(m) && p in m.released && p !in m.discounted
    ensures var m' := m.Return(p, Some(m.sent[p]));
            && (forall i :: 0 <= i < |m'.receipts| ==>
                  var r := m'.receipts[i];
                  r.pos in m'.discounted && r.pos < m'.deq && r.got == Some(m'.sent[r.pos]))
            && (forall i, j :: 0 <= i < j < |m'.receipts| ==> m'.receipts[i].pos != m'.receipts[j].pos)
  {
    hide HasReceipt, Slot;
    var m' := m.Return(p, Some(m.sent[p]));
    var n := |m.receipts|;
    assert forall i :: 0 <= i < n ==> m'.receipts[i] == m.receipts[i];
  }

  lemma KeepsReceipt<V>(m: Mem<V>, m': Mem<V>, q: nat)
    requires HasReceipt(m, q) || (m'.receipts != [] && m'.receipts[|m'.receipts| - 1].pos == q)
    requires m.receipts <= m'.receipts
    ensures HasReceipt(m', q)
  {
  }

  /** The threads other than the acting one keep what they know. */
  lemma OthersKeep<V>(m: Mem<V>, m': Mem<V>, t: Tid, pc: Pc<V>, u: Tid, other: Pc<V>)
    requires MemOk(m) && MemOk(m') && t != u && PcOk(m, t, pc) && PcOk(m, u, other)
    requires !pc.Idle? && exists sp :: m' == Advance(m, t, pc, sp).0
    ensures PcOk(m', u, other)
  {
    hide Slot, SlotsOk, ReceiptsOk;
    if pc.SendClaimed? || pc.RecvTaken? {
      Separate(m, pc.pos);
    }
  }

  lemma SendsStayOwned<V>(m: Mem<V>, t: Tid, pc: Pc<V>, sp: bool, pcs: map<Tid, Pc<V>>)
    requires HistoryOk(m) && PcOk(m, t, pc) && SendsOwned(m, pcs)
    requires t in pcs && pcs[t] == pc && !pc.Idle?
    requires HistoryOk(Advance(m, t, pc, sp).0)
    ensures var (m', pc') := Advance(m, t, pc, sp); SendsOwned(m', pcs[t := pc'])
  {
    hide Slot;
    var (m', pc') := Advance(m, t, pc, sp);
    if pc.SendClaimed? || pc.SendWritten? || pc.SendPublished? || pc.SendSaw? {
    } else {
      assert m'.sentBy == m.sentBy && m'.published == m.published && m'.counted == m.counted;
    }
  }

  lemma RecvsStayOwned<V>(m: Mem<V>, t: Tid, pc: Pc<V>, sp: bool, pcs: map<Tid, Pc<V>>)
    requires HistoryOk(m) && PcOk(m, t, pc) && RecvsOwned(m, pcs)
    requires t in pcs && pcs[t] == pc && !pc.Idle?
    requires HistoryOk(Advance(m, t, pc, sp).0)
    ensures var (m', pc') := Advance(m, t, pc, sp); RecvsOwned(m', pcs[t := pc'])
  {
    hide Slot;
    var (m', pc') := Advance(m, t, pc, sp);
    if pc.RecvClaimed? || pc.RecvTaken? || pc.RecvCleared? || pc.RecvReleased? || pc.RecvSaw? {
    } else {
      assert m'.takenBy == m.takenBy && m'.released == m.released && m'.discounted == m.discounted;
    }
  }

  lemma MemoryStaysOk<V>(m: Mem<V>, t: Tid, pc: Pc<V>, sp: bool)
    requires MemOk(m) && PcOk(m, t, pc) && !pc.Idle?
    ensures MemOk(Advance(m, t, pc, sp).0)
  {
    hide Slot, SlotsOk, ReceiptsOk;
    match pc
    case SendOpen(v) =>
    case RecvOpen =>
    case SendAt(v, pos) =>
    case SendSaw(v, pos, sq) =>
      if sq == pos && m.enq == pos && !sp { ClaimSendMem(m, t, v); }
    case SendClaimed(v, pos) => StoreMem(m, pos, Some(v));
    case SendWritten(v, pos) => PublishMem(m, pos);
    case SendPublished(pos) => CountMem(m, pos);
    case RecvAt(pos) =>
    case RecvSaw(pos, sq) =>
      if sq == pos + 1 && m.deq == pos && !sp { ClaimRecvMem(m, t); }
    case RecvClaimed(pos) =>
    case RecvTaken(pos, got) => StoreMem(m, pos, None);
    case RecvCleared(pos, got) => ReleaseMem(m, pos);
    case RecvReleased(pos, got) => ReturnMem(m, pos);
  }

  /** The acting thread's new program counter is true of the new memory. */
  lemma ActorStaysOk<V>(m: Mem<V>, t: Tid, pc: Pc<V>, sp: bool)
    requires MemOk(m) && PcOk(m, t, pc) && !pc.Idle?
    requires HistoryOk(Advance(m, t, pc, sp).0)
    ensures var (m', pc') := Advance(m, t, pc, sp); PcOk(m', t, pc')
  {
    hide Slot;
    if pc.SendAt? || pc.RecvAt? {
      hide SlotsOk, ReceiptsOk;
      SequenceMeaning(m, pc.pos);
    } else if pc.RecvSaw? && pc.sq == pc.pos + 1 {
      assert pc.pos >= m.deq ==> m.vals[Slot(pc.pos, m.cap)] == Some(m.sent[pc.pos]);
    }
  }

  lemma BeginKeeps<V>(s: State<V>, t: Tid, pc: Pc<V>)
    requires Inv(s) && t in s.pcs && s.pcs[t].Idle? && PcOk(s.mem, t, pc)
    ensures Inv(State(s.mem, s.pcs[t := pc]))
  {
    hide Slot, MemOk, PcOk;
  }

  lemma CloseKeeps<V>(s: State<V>)
    requires Inv(s)
    ensures Inv(State(s.mem.(closed := true), s.pcs))
  {
    hide Slot, HistoryOk, SlotsOk, ReceiptsOk, PcOk, SendsOwned, RecvsOwned;
    ClosedMemOk(s.mem);
    ClosedOwnership(s.mem, s.pcs);
    forall t | t in s.pcs ensures PcOk(s.mem.(closed := true), t, s.pcs[t]) {
      assert PcOk(s.mem, t, s.pcs[t]);
      ClosedPcOk(s.mem, t, s.pcs[t]);
    }
  }

  lemma ClosedPcOk<V>(m: Mem<V>, t: Tid, pc: Pc<V>)
    requires MemOk(m) && MemOk(m.(closed := true)) && PcOk(m, t, pc)
    ensures PcOk(m.(closed := true), t, pc)
  {
    hide Slot, SlotsOk, ReceiptsOk;
  }

  lemma ClosedOwnership<V>(m: Mem<V>, pcs: map<Tid, Pc<V>>)
    requires MemOk(m) && MemOk(m.(closed := true))
    requires SendsOwned(m, pcs) && RecvsOwned(m, pcs)
    ensures SendsOwned(m.(closed := true), pcs) && RecvsOwned(m.(closed := true), pcs)
  {
    hide Slot, SlotsOk, ReceiptsOk;
  }

  lemma ClosedMemOk<V>(m: Mem<V>)
    requires MemOk(m)
    ensures MemOk(m.(closed := true))
  {
    hide Slot;
  }

  lemma StepPreserves<V>(s: State<V>, t: Tid, c: Choice<V>)
    requires Inv(s) && Step(s, t, c).Some?
    ensures Inv(Step(s, t, c).value)
  {
    hide Slot, Advance;
    var s' := Step(s, t, c).value;
    match c
    case Close => CloseKeeps(s);
    case BeginSend(v) => BeginKeeps(s, t, s'.pcs[t]); assert s'.pcs == s.pcs[t := s'.pcs[t]];
    case Poll => BeginKeeps(s, t, s'.pcs[t]); assert s'.pcs == s.pcs[t := s'.pcs[t]];
    case BeginRecv => BeginKeeps(s, t, s'.pcs[t]);
    case Continue(sp) =>
      MemoryStaysOk(s.mem, t, s.pcs[t], sp);
      ActorStaysOk(s.mem, t, s.pcs[t], sp);
      SendsStayOwned(s.mem, t, s.pcs[t], sp, s.pcs);
      RecvsStayOwned(s.mem, t, s.pcs[t], sp, s.pcs);
      forall u | u in s'.pcs ensures PcOk(s'.mem, u, s'.pcs[u]) {
        if u != t { OthersKeep(s.mem, s'.mem, t, s.pcs[t], u, s.pcs[u]); }
      }
  }

  // ----- whole runs -----

  type Label<V> = (Tid, Choice<V>)

  ghost predicate IsRun<V>(states: seq<State<V>>, labels: seq<Label<V>>) {
    && |states| == |labels| + 1
    && Init(states[0])
    && (forall i :: 0 <= i < |labels| ==> Leads(states[i], labels[i], states[i + 1]))
  }

  ghost predicate Leads<V>(s: State<V>, l: Label<V>, s': State<V>) {
    s.mem.Shape() && Step(s, l.0, l.1) == Some(s')
  }

  lemma {:induction false} RunKeepsInv<V>(states: seq<State<V>>, labels: seq<Label<V>>, k: nat)
    requires IsRun(states, labels) && k < |states|
    ensures Inv(states[k])
  {
    hide Slot, Inv, Init, Step;
    if k == 0 {
      InitEstablishes(states[0]);
    } else {
      RunKeepsInv(states, labels, k - 1);
      assert Leads(states[k - 1], labels[k - 1], states[k]);
      StepPreserves(states[k - 1], labels[k - 1].0, labels[k - 1].1);
    }
  }

  /** History is append-only, so a fact about a position never changes its mind. */
  ghost predicate Extends<V>(m: Mem<V>, m': Mem<V>) {
    && m'.cap == m.cap
    && m.sent <= m'.sent && m.sentBy <= m'.sentBy && m.takenBy <= m'.takenBy
    && m.receipts <= m'.receipts
    && m.published <= m'.published && m.released <= m'.released
  }

  lemma {:induction false} RunExtends<V>(states: seq<State<V>>, labels: seq<Label<V>>, j: nat, k: nat)
    requires IsRun(states, labels) && j <= k < |states|
    ensures Extends(states[j].mem, states[k].mem)
    decreases k
  {
    hide Slot, Init, Leads;
    if j < k {
      RunExtends(states, labels, j, k - 1);
      StepExtends(states[k - 1], labels[k - 1], states[k]);
    }
  }

  lemma StepExtends<V>(s: State<V>, l: Label<V>, s': State<V>)
    requires Leads(s, l, s')
    ensures Extends(s.mem, s'.mem)
  {
    hide Slot;
  }

  /** A send that starts after another one was published gets a later position, and a
  receive that starts after another one was released gets a later one. */
  lemma PositionsFollowTime<V>(states: seq<State<V>>, labels: seq<Label<V>>, j: nat, k: nat, p: nat)
    requires IsRun(states, labels) && j <= k < |labels|
    ensures p in states[j].mem.published && states[k].mem.enq < states[k + 1].mem.enq ==>
              p < states[k].mem.enq && |states[k + 1].mem.sent| == states[k].mem.enq + 1
    ensures p in states[j].mem.released && states[k].mem.deq < states[k + 1].mem.deq ==>
              p < states[k].mem.deq && |states[k + 1].mem.takenBy| == states[k].mem.deq + 1
  {
    hide Slot, SlotsOk, ReceiptsOk, Init;
    RunExtends(states, labels, j, k);
    RunKeepsInv(states, labels, k);
    assert Leads(states[k], labels[k], states[k + 1]);
  }

  /** Delivery: in every interleaving, each completed receive returned exactly the
  value offered for its position, and no position was returned twice. */
  lemma DeliveredExactlyOnce<V>(states: seq<State<V>>, labels: seq<Label<V>>, k: nat)
    requires IsRun(states, labels) && k < |states|
    ensures var m := states[k].mem;
            && (forall i :: 0 <= i < |m.receipts| ==>
                  var r := m.receipts[i]; r.pos < |m.sent| && r.got == Some(m.sent[r.pos]))
            && (forall i, j :: 0 <= i < j < |m.receipts| ==> m.receipts[i].pos != m.receipts[j].pos)
  {
    RunKeepsInv(states, labels, k);
  }

  /** Where the message of a claimed position is. */
  datatype Place = InProducer | InSlot | InConsumer | Returned

  /** `where` is the place of the message claimed at position `p`, and the place
  really holds it. */
  ghost predicate Holds<V>(s: State<V>, p: nat, where: Place)
    requires HistoryOk(s.mem) && p < s.mem.enq
  {
    var m := s.mem;
    match where
    case InProducer =>
      var t := m.sentBy[p];
      t in s.pcs && Writing(s.pcs[t], p) && s.pcs[t].v == m.sent[p]
    case InSlot =>
      m.deq <= p && m.seqs[Slot(p, m.cap)] == p + 1 && m.vals[Slot(p, m.cap)] == Some(m.sent[p])
    case InConsumer =>
      && p < m.deq && m.takenBy[p] in s.pcs
      && var pc := s.pcs[m.takenBy[p]];
      || (pc == RecvClaimed(p) && m.vals[Slot(p, m.cap)] == Some(m.sent[p]))
      || pc == RecvTaken(p, Some(m.sent[p]))
      || pc == RecvCleared(p, Some(m.sent[p]))
      || pc == RecvReleased(p, Some(m.sent[p]))
    case Returned => Receipt(p, Some(m.sent[p])) in m.receipts
  }

  /** Nothing is lost and nothing is duplicated: at every moment each claimed
  position's message is in exactly one of the four places. */
  lemma ExactlyOnePlace<V>(s: State<V>, p: nat)
    requires Inv(s) && p < s.mem.enq
    ensures exists w :: Holds(s, p, w)
    ensures forall w1, w2 :: Holds(s, p, w1) && Holds(s, p, w2) ==> w1 == w2
  {
    hide Slot;
    var m := s.mem;
    SequenceMeaning(m, p);
    if p !in m.published {
      assert Holds(s, p, InProducer);
    } else if p >= m.deq {
      BufferedInSlot(s, p);
    } else if p !in m.discounted {
      var t := m.takenBy[p];
      assert PcOk(m, t, s.pcs[t]);
      assert Holds(s, p, InConsumer);
    } else {
      assert HasReceipt(m, p);
      assert Holds(s, p, Returned);
    }
    PlacesExclude(s, p);
  }

  lemma PlacesExclude<V>(s: State<V>, p: nat)
    requires Inv(s) && p < s.mem.enq
    ensures Holds(s, p, InProducer) ==> p !in s.mem.published
    ensures Holds(s, p, InSlot) ==> p in s.mem.published && p >= s.mem.deq
    ensures Holds(s, p, InConsumer) ==> p < s.mem.deq && p !in s.mem.discounted
    ensures Holds(s, p, Returned) ==> p in s.mem.discounted
  {
    hide Slot;
    SequenceMeaning(s.mem, p);
    if Holds(s, p, InProducer) { assert PcOk(s.mem, s.mem.sentBy[p], s.pcs[s.mem.sentBy[p]]); }
    if Holds(s, p, InConsumer) { assert PcOk(s.mem, s.mem.takenBy[p], s.pcs[s.mem.takenBy[p]]); }
  }

  /** Between claim and release a thread has its slot to itself. */
  predicate Holding<V>(pc: Pc<V>) {
    pc.SendClaimed? || pc.SendWritten? || pc.RecvClaimed? || pc.RecvTaken? || pc.RecvCleared?
  }

  lemma SlotAccessExclusive<V>(s: State<V>, t: Tid, u: Tid)
    requires Inv(s) && t in s.pcs && u in s.pcs && t != u
    requires Holding(s.pcs[t]) && Holding(s.pcs[u])
    ensures Slot(s.pcs[t].pos, s.mem.cap) != Slot(s.pcs[u].pos, s.mem.cap)
  {
    hide Slot;
    assert PcOk(s.mem, t, s.pcs[t]) && PcOk(s.mem, u, s.pcs[u]);
    Separate(s.mem, s.pcs[t].pos);
    assert s.pcs[t].pos != s.pcs[u].pos;
  }

  /** At most `cap` positions are claimed and not yet released. */
  lemma UnreleasedWithinCapacity<V>(m: Mem<V>)
    requires HistoryOk(m)
    ensures |set p: nat | 0 <= p < m.enq && p !in m.released| <= m.cap
  {
    var open := set p: nat | 0 <= p < m.enq && p !in m.released;
    var lo := if m.enq <= m.cap then 0 else m.enq - m.cap;
    SubsetSize(open, Interval(lo, m.enq));
  }

  /** A thread holds a sequence value it has read, or has just read it. */
  lemma EntersSaw<V>(s: State<V>, l: Label<V>, s': State<V>, t: Tid)
    requires Leads(s, l, s') && t in s'.pcs && (s'.pcs[t].SendSaw? || s'.pcs[t].RecvSaw?)
    ensures t in s.pcs
    ensures s.pcs[t] != s'.pcs[t] ==>
              && l.0 == t
              && s'.pcs[t].sq == s.mem.seqs[Slot(s'.pcs[t].pos, s.mem.cap)]
              && s.pcs[t] == (if s'.pcs[t].SendSaw? then SendAt(s'.pcs[t].v, s'.pcs[t].pos) else RecvAt(s'.pcs[t].pos))
  {
    hide Slot;
  }

  lemma SawMeaning<V>(s: State<V>, t: Tid)
    requires Inv(s) && t in s.pcs && (s.pcs[t].SendAt? || s.pcs[t].RecvAt?)
    ensures var sq, pos := s.mem.seqs[Slot(s.pcs[t].pos, s.mem.cap)], s.pcs[t].pos;
            && (sq < pos ==> pos >= s.mem.cap && pos - s.mem.cap !in s.mem.released)
            && (sq < pos + 1 ==> pos !in s.mem.published)
  {
    hide Slot, SlotsOk, ReceiptsOk, SendsOwned, RecvsOwned;
    assert PcOk(s.mem, t, s.pcs[t]);
    SequenceMeaning(s.mem, s.pcs[t].pos);
  }

  lemma StartsIdle<V>(s: State<V>, t: Tid)
    requires Init(s) && t in s.pcs
    ensures s.pcs[t].Idle?
  {
  }

  /** The step at which `t`, sending `v`, reads the sequence for `pos` while the position
  one lap earlier is unreleased. */
  ghost predicate ReadsFull<V>(s: State<V>, l: Label<V>, t: Tid, v: V, pos: nat) {
    && l.0 == t && t in s.pcs && s.pcs[t] == SendAt(v, pos)
    && pos >= s.mem.cap && pos - s.mem.cap !in s.mem.released
  }

  /** Step `i` read the sequence for `pos` too early, and `t` has not moved since. */
  ghost predicate FullSince<V>(states: seq<State<V>>, labels: seq<Label<V>>, i: nat, k: nat, t: Tid, v: V, pos: nat) {
    && i < k < |states| && i < |labels| && ReadsFull(states[i], labels[i], t, v, pos)
    && forall m :: i < m <= k ==> t in states[m].pcs && states[m].pcs[t].SendSaw?
  }

  lemma {:induction false} FullAnswerJustified<V>(states: seq<State<V>>, labels: seq<Label<V>>, k: nat,
                                                 t: Tid, v: V, pos: nat, sq: nat)
    requires IsRun(states, labels) && k < |states| && t in states[k].pcs
    requires states[k].pcs[t] == SendSaw(v, pos, sq) && sq < pos
    ensures exists i :: FullSince(states, labels, i, k, t, v, pos)
  {
    hide Slot, Inv, Step, Init, Leads, ReadsFull;
    if k > 0 {
      var s := states[k - 1];
      RunKeepsInv(states, labels, k - 1);
      assert Leads(s, labels[k - 1], states[k]);
      EntersSaw(s, labels[k - 1], states[k], t);
      if s.pcs[t] == states[k].pcs[t] {
        FullAnswerJustified(states, labels, k - 1, t, v, pos, sq);
        var i: nat :| FullSince(states, labels, i, k - 1, t, v, pos);
        assert FullSince(states, labels, i, k, t, v, pos);
      } else {
        SawFull(s, labels[k - 1], states[k], t);
        assert FullSince(states, labels, k - 1, k, t, v, pos);
      }
    } else {
      StartsIdle(states[0], t);
    }
  }

  lemma SawFull<V>(s: State<V>, l: Label<V>, s': State<V>, t: Tid)
    requires Inv(s) && Leads(s, l, s') && t in s.pcs && t in s'.pcs && s'.pcs[t].SendSaw? && s.pcs[t] != s'.pcs[t]
    requires s'.pcs[t].sq < s'.pcs[t].pos
    ensures ReadsFull(s, l, t, s'.pcs[t].v, s'.pcs[t].pos)
  {
    hide Slot, Inv, Leads;
    EntersSaw(s, l, s', t);
    SawMeaning(s, t);
  }

  /** How a send before its claim can come to an end. */
  lemma SendEnds<V>(s: State<V>, l: Label<V>, s': State<V>, t: Tid)
    requires Leads(s, l, s') && t in s.pcs && t in s'.pcs && s'.pcs[t].Idle?
    requires s.pcs[t].SendOpen? || s.pcs[t].SendAt? || s.pcs[t].SendSaw?
    ensures s.pcs[t].SendSaw? && s.pcs[t].sq < s.pcs[t].pos
  {
    hide Slot;
  }

  /** A send that comes to an end without a claim was refused because the ring was full: a
  step of the same call read the sequence of a position whose predecessor one lap earlier
  was claimed and unreleased. */
  lemma RefusedOnlyWhenFull<V>(states: seq<State<V>>, labels: seq<Label<V>>, k: nat, t: Tid)
    requires IsRun(states, labels) && k < |labels| && t in states[k].pcs && t in states[k + 1].pcs
    requires states[k].pcs[t].SendOpen? || states[k].pcs[t].SendAt? || states[k].pcs[t].SendSaw?
    requires states[k + 1].pcs[t].Idle?
    ensures exists i, v, pos :: FullSince(states, labels, i, k, t, v, pos)
  {
    assert Leads(states[k], labels[k], states[k + 1]);
    SendEnds(states[k], labels[k], states[k + 1], t);
    hide IsRun, Leads, FullSince;
    var pc := states[k].pcs[t];
    FullAnswerJustified(states, labels, k, t, pc.v, pc.pos, pc.sq);
  }

  /** The step at which `t`, receiving, reads the sequence for an unpublished `pos`. */
  ghost predicate ReadsEmpty<V>(s: State<V>, l: Label<V>, t: Tid, pos: nat) {
    && l.0 == t && t in s.pcs && s.pcs[t] == RecvAt(pos)
    && pos !in s.mem.published
  }

  /** Step `i` read the sequence for `pos` too early, and `t` has not moved since. */
  ghost predicate EmptySince<V>(states: seq<State<V>>, labels: seq<Label<V>>, i: nat, k: nat, t: Tid, pos: nat) {
    && i < k < |states| && i < |labels| && ReadsEmpty(states[i], labels[i], t, pos)
    && forall m :: i < m <= k ==> t in states[m].pcs && states[m].pcs[t].RecvSaw?
  }

  lemma {:induction false} EmptyAnswerJustified<V>(states: seq<State<V>>, labels: seq<Label<V>>, k: nat,
                                                  t: Tid, pos: nat, sq: nat)
    requires IsRun(states, labels) && k < |states| && t in states[k].pcs
    requires states[k].pcs[t] == RecvSaw(pos, sq) && sq < pos + 1
    ensures exists i :: EmptySince(states, labels, i, k, t, pos)
  {
    hide Slot, Inv, Step, Init, Leads, ReadsEmpty;
    if k > 0 {
      var s := states[k - 1];
      RunKeepsInv(states, labels, k - 1);
      assert Leads(s, labels[k - 1], states[k]);
      EntersSaw(s, labels[k - 1], states[k], t);
      if s.pcs[t] == states[k].pcs[t] {
        EmptyAnswerJustified(states, labels, k - 1, t, pos, sq);
        var i: nat :| EmptySince(states, labels, i, k - 1, t, pos);
        assert EmptySince(states, labels, i, k, t, pos);
      } else {
        SawEmpty(s, labels[k - 1], states[k], t);
        assert EmptySince(states, labels, k - 1, k, t, pos);
      }
    } else {
      StartsIdle(states[0], t);
    }
  }

  lemma SawEmpty<V>(s: State<V>, l: Label<V>, s': State<V>, t: Tid)
    requires Inv(s) && Leads(s, l, s') && t in s.pcs && t in s'.pcs && s'.pcs[t].RecvSaw? && s.pcs[t] != s'.pcs[t]
    requires s'.pcs[t].sq < s'.pcs[t].pos + 1
    ensures ReadsEmpty(s, l, t, s'.pcs[t].pos)
  {
    hide Slot, Inv, Leads;
    EntersSaw(s, l, s', t);
    SawMeaning(s, t);
  }

  /** How a receive before its claim can come to an end. */
  lemma RecvEnds<V>(s: State<V>, l: Label<V>, s': State<V>, t: Tid)
    requires Leads(s, l, s') && t in s.pcs && t in s'.pcs && s'.pcs[t].Idle?
    requires s.pcs[t].RecvOpen? || s.pcs[t].RecvAt? || s.pcs[t].RecvSaw?
    ensures s.pcs[t].RecvSaw? && s.pcs[t].sq < s.pcs[t].pos + 1
  {
    hide Slot;
  }

  /** A receive that comes to an end without a claim found nothing: a step of the same call
  read the sequence of a position that had not been published. */
  lemma RefusedOnlyWhenEmpty<V>(states: seq<State<V>>, labels: seq<Label<V>>, k: nat, t: Tid)
    requires IsRun(states, labels) && k < |labels| && t in states[k].pcs && t in states[k + 1].pcs
    requires states[k].pcs[t].RecvOpen? || states[k].pcs[t].RecvAt? || states[k].pcs[t].RecvSaw?
    requires states[k + 1].pcs[t].Idle?
    ensures exists i, pos :: EmptySince(states, labels, i, k, t, pos)
  {
    assert Leads(states[k], labels[k], states[k + 1]);
    RecvEnds(states[k], labels[k], states[k + 1], t);
    hide IsRun, Leads, EmptySince;
    var pc := states[k].pcs[t];
    EmptyAnswerJustified(states, labels, k, t, pc.pos, pc.sq);
  }

  /** Closing closes.  How a call begins: a send is refused at once exactly on a closed channel, a receive from
  a channel never, and one from a mailbox exactly while the counter is not positive. */
  lemma CallBegins<V>(s: State<V>, t: Tid, v: V)
    requires s.mem.Shape() && t in s.pcs && s.pcs[t].Idle?
    ensures Step(s, t, BeginSend(v)).Some? && Step(s, t, BeginRecv).Some? && Step(s, t, Poll).Some?
    ensures Step(s, t, BeginSend(v)).value.pcs[t].Idle? <==> s.mem.closed
    ensures !s.mem.closed ==> Step(s, t, BeginSend(v)).value.pcs[t] == SendOpen(v)
    ensures !Step(s, t, BeginRecv).value.pcs[t].Idle?
    ensures Step(s, t, Poll).value.pcs[t].Idle? <==> s.mem.count <= 0
    ensures Step(s, t, Close).Some? && Step(s, t, Close).value.mem.closed
  {
  }

  // ----- the approximate counter -----

  lemma IdleMeansSettled<V>(s: State<V>)
    requires Inv(s) && forall t :: t in s.pcs ==> s.pcs[t].Idle?
    ensures forall p: nat :: p < s.mem.enq ==> p in s.mem.counted
    ensures forall p: nat :: p < s.mem.deq ==> p in s.mem.discounted
  {
    hide Slot, SlotsOk, PcOk;
  }

  /** With no operation running, the counter is the number of buffered messages, and
  the buffered messages sit in their slots in order. */
  lemma QuiescentCount<V>(s: State<V>)
    requires Inv(s) && forall t :: t in s.pcs ==> s.pcs[t].Idle?
    ensures s.mem.count == s.mem.enq - s.mem.deq
    ensures forall p: nat :: s.mem.deq <= p < s.mem.enq ==> Holds(s, p, InSlot)
  {
    hide Slot, SlotsOk, PcOk, SendsOwned, RecvsOwned, HasReceipt;
    IdleMeansSettled(s);
    var m := s.mem;
    assert m.counted == Interval(0, m.enq);
    assert m.discounted == Interval(0, m.deq);
    forall p: nat | m.deq <= p < m.enq ensures Holds(s, p, InSlot) {
      hide ReceiptsOk;
      BufferedInSlot(s, p);
    }
  }

  lemma BufferedInSlot<V>(s: State<V>, p: nat)
    requires MemOk(s.mem) && s.mem.deq <= p < s.mem.enq && p in s.mem.published
    ensures Holds(s, p, InSlot)
  {
    hide Slot, ReceiptsOk;
    SequenceMeaning(s.mem, p);
  }

  // ----- choosing the capacity -----

  /** `next_pow2`: smear the highest set bit downwards and add one, in 32-bit
  arithmetic that wraps. */
  function NextPow2(v: bv32): (r: bv32) {
    var a := v - 1;
    var b := a | (a >> 1);
    var c := b | (b >> 2);
    var d := c | (c >> 4);
    var e := d | (d >> 8);
    var f := (e | (e >> 16)) + 1;
    if f < 2 then 2 else f
  }

  /** For every argument the result is a power of two and at least 2; up to 2^31 it is
  the least such value that is not below the argument. */
  lemma NextPow2IsCapacity(v: bv32)
    ensures IsPow2(NextPow2(v) as nat) && NextPow2(v) as nat >= 2
    ensures 1 <= v <= 0x8000_0000 ==> NextPow2(v) >= v && (NextPow2(v) == 2 || (NextPow2(v) >> 1) < v)
  {
    SmearedBits(v);
    SingleBit(NextPow2(v));
  }

  lemma SmearedBits(v: bv32)
    ensures var r := NextPow2(v);
            && r & (r - 1) == 0 && r >= 2
            && (1 <= v <= 0x8000_0000 ==> r >= v && (r == 2 || (r >> 1) < v))
  {
  }

  predicate LowBit(r: bv32) {
    || r == 0x2 || r == 0x4 || r == 0x8 || r == 0x10 || r == 0x20 || r == 0x40 || r == 0x80 || r == 0x100
    || r == 0x200 || r == 0x400 || r == 0x800 || r == 0x1000 || r == 0x2000 || r == 0x4000 || r == 0x8000
  }

  predicate HighBit(r: bv32) {
    || r == 0x10000 || r == 0x20000 || r == 0x40000 || r == 0x80000 || r == 0x100000 || r == 0x200000
    || r == 0x400000 || r == 0x800000 || r == 0x1000000 || r == 0x2000000 || r == 0x4000000
    || r == 0x8000000 || r == 0x10000000 || r == 0x20000000 || r == 0x40000000 || r == 0x80000000
  }

  lemma SingleBit(r: bv32)
    requires r & (r - 1) == 0 && r >= 2
    ensures IsPow2(r as nat) && r as nat >= 2
  {
    assert LowBit(r) || HighBit(r);
    hide LowBit, HighBit;
    if LowBit(r) {
      LowBitPow2(r);
    } else {
      HighBitPow2(r);
    }
  }

  lemma LowBitPow2(r: bv32)
    requires LowBit(r)
    ensures IsPow2(r as nat) && r as nat >= 2
  {
    assert Pow2(1) == 0x2 && Pow2(2) == 0x4 && Pow2(3) == 0x8 && Pow2(4) == 0x10 && Pow2(5) == 0x20;
    assert Pow2(6) == 0x40 && Pow2(7) == 0x80 && Pow2(8) == 0x100 && Pow2(9) == 0x200 && Pow2(10) == 0x400;
    assert Pow2(11) == 0x800 && Pow2(12) == 0x1000 && Pow2(13) == 0x2000 && Pow2(14) == 0x4000 && Pow2(15) == 0x8000;
  }

  lemma HighBitPow2(r: bv32)
    requires HighBit(r)
    ensures IsPow2(r as nat) && r as nat >= 2
  {
    assert Pow2(15) == 0x8000;
    assert Pow2(16) == 0x10000 && Pow2(17) == 0x20000 && Pow2(18) == 0x40000 && Pow2(19) == 0x80000;
    assert Pow2(20) == 0x100000 && Pow2(21) == 0x200000 && Pow2(22) == 0x400000 && Pow2(23) == 0x800000;
    assert Pow2(24) == 0x1000000 && Pow2(25) == 0x2000000 && Pow2(26) == 0x4000000 && Pow2(27) == 0x8000000;
    assert Pow2(28) == 0x10000000 && Pow2(29) == 0x20000000 && Pow2(30) == 0x40000000;
    assert Pow2(31) == 0x80000000;
  }
}
