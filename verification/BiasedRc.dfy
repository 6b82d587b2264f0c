/** Biased reference counting (bootstrap/cell.c:361-506, 874-887). */
module BiasedRc {
  // The owner thread counts its references in a plain counter `biased`; every other reference
  // is counted in one atomic word whose low 31 bits are `shared` and whose top bit says that
  // the owner's counter has been merged.
  //
  // The first part interleaves the single accesses of the owner's multi-access operations with
  // the one-access operations of all other threads. The second part is the object with each
  // operation atomic.

  import opened Options

  /** Where the owner is inside a release or a transfer. */
  datatype OwnerPc =
    | Idle
    | Released        // biased dropped to 0, shared word not yet read
    | Merging         // shared word was nonzero, merged flag not yet set
    | Moved           // transfer: shared incremented, biased not yet dropped
    | Disowning       // transfer: biased dropped to 0, merged flag not yet set

  /** `ownerRefs` and `sharedRefs` are the live references by domain; `frees` counts the
  decisions to free the cell. */
  datatype State = State(
    biased: nat, owned: bool, shared: int, merged: bool, pc: OwnerPc,
    ownerRefs: nat, sharedRefs: nat, frees: nat)
  {
    function Live(): (r: nat) { ownerRefs + sharedRefs }
  }

  const START := State(1, true, 0, false, Idle, 1, 0, 0)

  datatype Choice =
    | OwnerRetain
    | OwnerRelease
    | OwnerTransfer
    | OwnerContinue    // the owner's next access
    | SharedRetain     // retain by a non-owner, or cell_retain_shared by anyone
    | SharedRelease    // release by a non-owner, or cell_release_shared by anyone

  /** The next access of the owner's running operation. */
  function OwnerNext(s: State): (r: Option<State>) {
    match s.pc
    case Idle => None
    case Released =>
      if s.shared == 0 then Some(s.(pc := Idle, frees := s.frees + 1))
      else Some(s.(pc := Merging))
    case Merging => Some(s.(pc := Idle, merged := true))
    case Moved =>
      if s.biased == 0 then None
      else if s.biased == 1 then Some(s.(biased := 0, owned := false, pc := Disowning))
      else Some(s.(biased := s.biased - 1, pc := Idle))
    case Disowning => Some(s.(pc := Idle, merged := true))
  }

  /** One access.  Guards are the callers' obligations: a release gives up a live
  reference of its own domain, a retain copies a live reference, and the owner retains
  only while its own counter is positive. */
  function Step(s: State, c: Choice): (r: Option<State>) {
    match c
    case OwnerRetain =>
      if s.pc.Idle? && s.owned && s.ownerRefs > 0 then
        Some(s.(biased := s.biased + 1, ownerRefs := s.ownerRefs + 1))
      else None
    case OwnerRelease =>
      if s.pc.Idle? && s.owned && s.ownerRefs > 0 && s.biased > 0 then
        Some(s.(biased := s.biased - 1, ownerRefs := s.ownerRefs - 1,
                pc := if s.biased == 1 then Released else Idle))
      else None
    case OwnerTransfer =>
      if s.pc.Idle? && s.owned && s.ownerRefs > 0 then
        Some(s.(shared := s.shared + 1, ownerRefs := s.ownerRefs - 1,
                sharedRefs := s.sharedRefs + 1, pc := Moved))
      else None
    case OwnerContinue => OwnerNext(s)
    case SharedRetain =>
      if s.Live() > 0 then Some(s.(shared := s.shared + 1, sharedRefs := s.sharedRefs + 1)) else None
    case SharedRelease =>
      if s.sharedRefs > 0 then
        Some(s.(shared := s.shared - 1, sharedRefs := s.sharedRefs - 1,
                frees := if s.merged && s.shared == 1 then s.frees + 1 else s.frees))
      else None
  }

  /** The owner has given up its counter but the merged flag is not up yet. */
  predicate Window(pc: OwnerPc) {
    pc.Merging? || pc.Moved? || pc.Disowning?
  }

  /** The last live reference goes by a shared release inside the owner's window. */
  predicate LastRefInWindow(s: State, c: Choice) {
    c.SharedRelease? && s.sharedRefs == 1 && s.ownerRefs == 0 && Window(s.pc)
  }

  ghost predicate Inv(s: State) {
    && s.shared == s.sharedRefs
    && s.biased == s.ownerRefs + (if s.pc.Moved? then 1 else 0)
    && (s.pc.Released? || s.pc.Merging? || s.pc.Disowning? ==> s.biased == 0 && !s.merged && s.frees == 0)
    && (s.pc.Moved? ==> s.owned && !s.merged && s.frees == 0)
    && (s.merged ==> s.biased == 0)
    && (!s.owned ==> s.biased == 0)
    && (s.pc.Idle? && s.biased == 0 ==> s.merged || s.frees == 1)
    && s.frees <= 1
    && (s.frees == 1 ==> s.Live() == 0 && s.pc.Idle?)
  }

  lemma StepKeepsInv(s: State, c: Choice)
    requires Inv(s) && Step(s, c).Some?
    ensures Inv(Step(s, c).value)
  {
  }

  /** What each access does to the live references, and when it is possible: the owner's calls
  while it is idle and has a reference, a retain by others while anybody has one, a release
  while there is one of that domain. */
  lemma ReferencesMove(s: State, c: Choice)
    requires Inv(s)
    ensures Step(s, c).Some? <==>
              match c
              case OwnerContinue => !s.pc.Idle?
              case SharedRetain => s.ownerRefs > 0 || s.sharedRefs > 0
              case SharedRelease => s.sharedRefs > 0
              case _ => s.pc.Idle? && s.owned && s.ownerRefs > 0
    ensures Step(s, c).Some? ==>
              var s' := Step(s, c).value;
              && s'.ownerRefs - s.ownerRefs ==
                   (if c.OwnerRetain? then 1 else if c.OwnerRelease? || c.OwnerTransfer? then -1 else 0)
              && s'.sharedRefs - s.sharedRefs ==
                   (if c.SharedRetain? || c.OwnerTransfer? then 1 else if c.SharedRelease? then -1 else 0)
  {
  }

  ghost predicate IsRun(states: seq<State>, choices: seq<Choice>) {
    && |states| == |choices| + 1
    && states[0] == START
    && (forall i :: 0 <= i < |choices| ==> Leads(states[i], choices[i], states[i + 1]))
  }

  ghost predicate Leads(s: State, c: Choice, s': State) {
    Step(s, c) == Some(s')
  }

  lemma {:induction false} RunKeepsInv(states: seq<State>, choices: seq<Choice>, k: nat)
    requires IsRun(states, choices) && k < |states|
    ensures Inv(states[k])
  {
    if k > 0 {
      hide Step, Inv;
      RunKeepsInv(states, choices, k - 1);
      assert Leads(states[k - 1], choices[k - 1], states[k]);
      StepKeepsInv(states[k - 1], choices[k - 1]);
    }
  }

  /** Without live references and with the owner idle no access is possible. */
  lemma DeadIsFinal(s: State)
    requires Inv(s) && s.Live() == 0 && s.pc.Idle?
    ensures forall c :: Step(s, c) == None
  {
  }

  /** Safety in every interleaving: never two frees, and once freed no reference is live
  and nobody can touch the cell again. */
  lemma FreedAtMostOnceAndDead(states: seq<State>, choices: seq<Choice>, k: nat)
    requires IsRun(states, choices) && k < |states|
    ensures states[k].frees <= 1
    ensures states[k].frees == 1 ==> states[k].Live() == 0 && forall c :: Step(states[k], c) == None
  {
    hide Step;
    RunKeepsInv(states, choices, k);
    if states[k].frees == 1 {
      DeadIsFinal(states[k]);
    }
  }

  /** Up to step `k` the last reference went inside a window. */
  ghost predicate Orphaned(states: seq<State>, choices: seq<Choice>, k: nat)
    requires IsRun(states, choices) && k < |states|
  {
    exists i :: 0 <= i < k && LastRefInWindow(states[i], choices[i])
  }

  /** With no reference left and the owner idle, the cell has been freed exactly unless
  its last reference was released inside the owner's window; then it never will be. */
  lemma FreedUnlessOrphaned(states: seq<State>, choices: seq<Choice>, k: nat)
    requires IsRun(states, choices) && k < |states|
    requires states[k].Live() == 0 && states[k].pc.Idle?
    ensures states[k].frees == 1 <==> !Orphaned(states, choices, k)
    ensures forall c :: Step(states[k], c) == None
  {
    hide Step;
    RunKeepsInv(states, choices, k);
    DeadIsFinal(states[k]);
    FateOfDeadCell(states, choices, k);
  }

  /** What has become of a cell without live references. */
  ghost predicate Fate(s: State, orphaned: bool) {
    if s.Live() > 0 || s.pc.Released? then !orphaned
    else s.frees == 1 <==> !orphaned
  }

  lemma FateStep(s: State, c: Choice, orphaned: bool)
    requires Inv(s) && Step(s, c).Some? && Fate(s, orphaned)
    ensures Fate(Step(s, c).value, orphaned || LastRefInWindow(s, c))
  {
  }

  lemma {:induction false} FateOfDeadCell(states: seq<State>, choices: seq<Choice>, k: nat)
    requires IsRun(states, choices) && k < |states|
    ensures Fate(states[k], Orphaned(states, choices, k))
  {
    if k > 0 {
      hide Step, Inv, Fate;
      FateOfDeadCell(states, choices, k - 1);
      RunKeepsInv(states, choices, k - 1);
      assert Leads(states[k - 1], choices[k - 1], states[k]);
      FateStep(states[k - 1], choices[k - 1], Orphaned(states, choices, k - 1));
    }
  }

  /** The leak exists: owner and one other thread, one reference each.  The owner reads
  a nonzero shared count, the other thread releases, the owner sets the flag. */
  lemma LeakRun() returns (states: seq<State>, choices: seq<Choice>)
    ensures IsRun(states, choices)
    ensures var s := states[|states| - 1]; s.Live() == 0 && s.pc.Idle? && s.frees == 0 && s.merged
  {
    choices := [SharedRetain, OwnerRelease, OwnerContinue, SharedRelease, OwnerContinue];
    var s1 := START.(shared := 1, sharedRefs := 1);
    var s2 := s1.(biased := 0, ownerRefs := 0, pc := Released);
    var s3 := s2.(pc := Merging);
    var s4 := s3.(shared := 0, sharedRefs := 0);
    var s5 := s4.(pc := Idle, merged := true);
    states := [START, s1, s2, s3, s4, s5];
    assert Leads(START, choices[0], s1) && Leads(s1, choices[1], s2) && Leads(s2, choices[2], s3);
    assert Leads(s3, choices[3], s4) && Leads(s4, choices[4], s5);
  }

  /** If no access of another thread falls inside an operation of the owner, the last
  reference always frees the cell. */
  lemma FreedWhenAtomic(states: seq<State>, choices: seq<Choice>, k: nat)
    requires IsRun(states, choices) && k < |states|
    requires forall i :: 0 <= i < k && !states[i].pc.Idle? ==> choices[i].OwnerContinue?
    requires states[k].Live() == 0 && states[k].pc.Idle?
    ensures states[k].frees == 1
  {
    FreedUnlessOrphaned(states, choices, k);
  }

  // ----- the object, each operation atomic -----

  const MERGED_FLAG: nat := 0x8000_0000
  const WORD: nat := 0x1_0000_0000
  const IMMORTAL: nat := 0xFFFF
  const DISOWNED: nat := 0xFFFF

  /** A cell's counters: `shared` is the packed 32-bit word, `biased` and `weak` are
  16-bit.  `ownerRefs` and `sharedRefs` are the live references of each domain, `frees`
  and `givenBack` count how often the children were released and the memory given back. */
  class CountedCell {
    var biased: nat
    var ownerTid: nat
    var shared: nat
    var weak: nat
    ghost var ownerRefs: nat
    ghost var sharedRefs: nat
    ghost var frees: nat
    ghost var givenBack: nat

    ghost function Live(): (r: nat)
      reads this
    {
      ownerRefs + sharedRefs
    }

    /** The counters are the references; the cell is freed exactly when none is left and
    its memory returned exactly when no weak reference is left either. */
    ghost predicate Valid()
      reads this
    {
      if biased == IMMORTAL then frees == 0 && givenBack == 0
      else
        && biased == ownerRefs < IMMORTAL
        && shared < WORD && shared % MERGED_FLAG == sharedRefs
        && (shared >= MERGED_FLAG || ownerTid == DISOWNED ==> biased == 0)
        && (biased == 0 && Live() > 0 ==> shared >= MERGED_FLAG)
        && frees == (if Live() == 0 then 1 else 0)
        && givenBack == (if Live() == 0 && weak == 0 then 1 else 0)
    }

    constructor (tid: nat)
      requires tid != DISOWNED
      ensures Valid() && ownerTid == tid && ownerRefs == 1 && sharedRefs == 0 && weak == 0 && biased == 1
    {
      biased, ownerTid, shared, weak := 1, tid, 0, 0;
      ownerRefs, sharedRefs, frees, givenBack := 1, 0, 0, 0;
    }

    /** `cell_retain`: the owner counts in `biased`, everyone else in the shared word. */
    method Retain(tid: nat)
      requires Valid() && Live() > 0
      requires biased != IMMORTAL && tid == ownerTid ==> 0 < biased < IMMORTAL - 1
      requires tid != ownerTid ==> sharedRefs + 1 < MERGED_FLAG
      modifies this
      ensures Valid() && weak == old(weak) && ownerTid == old(ownerTid)
      ensures old(biased) == IMMORTAL ==> unchanged(this)
      ensures old(biased) != IMMORTAL ==>
                if tid == ownerTid then ownerRefs == old(ownerRefs) + 1 && sharedRefs == old(sharedRefs)
                else ownerRefs == old(ownerRefs) && sharedRefs == old(sharedRefs) + 1
    {
      if biased == IMMORTAL {
        return;
      }
      if ownerTid == tid {
        biased := biased + 1;
        ownerRefs := ownerRefs + 1;
        return;
      }
      RetainSlow();
    }

    /** `cell_retain_slow`: add one to the packed word. */
    method RetainSlow()
      requires Valid() && biased != IMMORTAL && Live() > 0 && sharedRefs + 1 < MERGED_FLAG
      modifies this
      ensures Valid() && sharedRefs == old(sharedRefs) + 1
      ensures unchanged(`biased, `ownerTid, `weak, `ownerRefs)
      ensures (shared >= MERGED_FLAG) == (old(shared) >= MERGED_FLAG)
    {
      shared := (shared + 1) % WORD;
      sharedRefs := sharedRefs + 1;
    }

    /** `cell_release`. */
    method Release(tid: nat)
      requires Valid()
      requires biased != IMMORTAL ==> if tid == ownerTid then ownerRefs > 0 else sharedRefs > 0
      modifies this
      ensures Valid() && weak == old(weak) && ownerTid == old(ownerTid)
      ensures old(biased) == IMMORTAL ==> unchanged(this)
      ensures old(biased) != IMMORTAL ==>
                if tid == ownerTid then ownerRefs == old(ownerRefs) - 1 && sharedRefs == old(sharedRefs)
                else ownerRefs == old(ownerRefs) && sharedRefs == old(sharedRefs) - 1
    {
      if biased == IMMORTAL {
        return;
      }
      if ownerTid == tid {
        biased := biased - 1;
        ownerRefs := ownerRefs - 1;
        if biased == 0 {
          if shared % MERGED_FLAG == 0 {
            DoFree();
          } else if shared < MERGED_FLAG {
            shared := shared + MERGED_FLAG;
          }
        }
        return;
      }
      var last := ReleaseSlow();
      if last {
        DoFree();
      }
    }

    /** `cell_release_slow`: subtract one; true when that was the last reference of a
    merged cell. */
    method ReleaseSlow() returns (last: bool)
      requires Valid() && biased != IMMORTAL && sharedRefs > 0
      modifies `shared, `sharedRefs
      ensures sharedRefs == old(sharedRefs) - 1
      ensures shared == old(shared) - 1 && shared % MERGED_FLAG == sharedRefs
      ensures (shared >= MERGED_FLAG) == (old(shared) >= MERGED_FLAG)
      ensures last <==> Live() == 0
    {
      var prev := shared;
      shared := (shared + WORD - 1) % WORD;
      sharedRefs := sharedRefs - 1;
      last := prev >= MERGED_FLAG && prev % MERGED_FLAG == 1;
    }

    /** The last reference has just gone: neither children nor memory are released yet. */
    ghost predicate Dying()
      reads this
    {
      && biased == 0 && Live() == 0 && shared < WORD && shared % MERGED_FLAG == 0
      && frees == 0 && givenBack == 0
    }

    /** The free path: release the children, return the memory unless weak references
    keep the zombie.  It makes a dying cell a valid dead one, whose children are released
    once and whose memory is returned, or left to the last weak release. */
    method DoFree()
      requires Dying()
      modifies `frees, `givenBack
      ensures Valid() && frees == 1 && (givenBack == 1 <==> weak == 0)
    {
      frees := frees + 1;
      if weak == 0 {
        givenBack := givenBack + 1;
      }
    }

    /** `cell_release_shared`: a release in the shared domain by any thread. */
    method ReleaseShared()
      requires Valid() && (biased != IMMORTAL ==> sharedRefs > 0)
      modifies this
      ensures Valid() && unchanged(`biased, `ownerTid, `weak, `ownerRefs)
      ensures old(biased) != IMMORTAL ==> sharedRefs == old(sharedRefs) - 1
    {
      if biased == IMMORTAL {
        return;
      }
      var last := ReleaseSlow();
      if last {
        DoFree();
      }
    }

    /** `cell_transfer_to_shared`: one reference moves from the owner's domain to the
    shared one; the last one disowns the cell. */
    method TransferToShared(tid: nat)
      requires Valid() && Live() > 0
      requires biased != IMMORTAL ==> sharedRefs + 1 < MERGED_FLAG
      requires biased != IMMORTAL && tid == ownerTid ==> ownerRefs > 0
      modifies this
      ensures Valid() && weak == old(weak)
      ensures old(biased) != IMMORTAL ==> sharedRefs == old(sharedRefs) + 1
      ensures old(biased) != IMMORTAL ==>
                ownerRefs == old(ownerRefs) - (if tid == old(ownerTid) then 1 else 0)
      ensures old(biased) != IMMORTAL && tid == old(ownerTid) && ownerRefs == 0 ==>
                ownerTid == DISOWNED && shared >= MERGED_FLAG
    {
      if biased == IMMORTAL {
        return;
      }
      RetainSlow();
      if ownerTid != tid {
        return;
      }
      biased := biased - 1;
      ownerRefs := ownerRefs - 1;
      if biased == 0 {
        ownerTid := DISOWNED;
        if shared < MERGED_FLAG {
          shared := shared + MERGED_FLAG;
        }
      }
    }

    /** `cell_weak_retain`. */
    method WeakRetain()
      requires Valid() && (Live() > 0 || weak > 0) && weak + 1 < 0x1_0000
      modifies this
      ensures Valid() && weak == old(weak) + 1
      ensures unchanged(`biased, `ownerTid, `shared, `ownerRefs, `sharedRefs)
    {
      weak := weak + 1;
    }

    /** `cell_weak_release`: the last weak reference of a dead cell returns its memory. */
    method WeakRelease()
      requires Valid() && weak > 0
      modifies this
      ensures Valid() && weak == old(weak) - 1
      ensures unchanged(`biased, `ownerTid, `shared, `ownerRefs, `sharedRefs)
    {
      var prev := weak;
      weak := weak - 1;
      if prev == 1 && biased == 0 && shared % MERGED_FLAG == 0 {
        givenBack := givenBack + 1;
      }
    }
  }
}
