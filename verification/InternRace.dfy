/** Threads racing through `intern`: the cache check, the read-locked probe and the
write-locked insert are separate steps (bootstrap/intern.c:113-188). */
module InternRace {
  // What the locked sections do to the table is what `Intern.Table` proves of them.

  import opened Intern
  import opened Options

  datatype Phase = Idle | Probing(ptr: nat, str: string) | Missed(ptr: nat, str: string)

  /** A returned result. */
  datatype Answer = Answer(thread: int, str: string, id: int, canonical: int)

  datatype Key = Key(thread: int, index: int)

  datatype Remembered = Remembered(ptr: nat, id: int, canonical: int)

  /** `text` is the memory holding the canonical copies, by address; `log` is every result
  returned so far. */
  datatype State = State(
    names: seq<string>, canon: seq<int>, text: map<int, string>,
    phases: map<int, Phase>, caches: map<Key, Remembered>, log: seq<Answer>)

  const START := State([], [], map[], map[], map[], [])

  datatype Step =
    | Call(thread: int, ptr: nat, str: string)
    | Probe(thread: int)
    | Insert(thread: int, address: int)  // the address that strdup returns, if it is called

  function PhaseOf(s: State, t: int): (p: Phase) {
    if t in s.phases then s.phases[t] else Idle
  }

  function IndexOf(ptr: nat): (i: int) { (ptr / 16) % CACHE_SIZE }

  /** Remembers and returns the result for an interned string. */
  function Answered(s: State, t: int, ptr: nat, str: string): (r: State)
    requires str in s.names && |s.canon| == |s.names|
  {
    var k := IdOf(s.names, str);
    s.(phases := s.phases[t := Idle],
       caches := s.caches[Key(t, IndexOf(ptr)) := Remembered(ptr, k, s.canon[k])],
       log := s.log + [Answer(t, str, k, s.canon[k])])
  }

  function Next(s: State, step: Step): (r: Option<State>)
    requires |s.canon| == |s.names|
  {
    match step
    case Call(t, ptr, str) =>
      var key := Key(t, IndexOf(ptr));
      if PhaseOf(s, t) != Idle || |str| > MAX_BYTES then None
      else if key in s.caches && s.caches[key].ptr == ptr
              && s.caches[key].canonical in s.text && s.text[s.caches[key].canonical] == str then
        Some(s.(log := s.log + [Answer(t, str, s.caches[key].id, s.caches[key].canonical)]))
      else Some(s.(phases := s.phases[t := Probing(ptr, str)]))
    case Probe(t) =>
      var p := PhaseOf(s, t);
      if !p.Probing? then None
      else if p.str in s.names then Some(Answered(s, t, p.ptr, p.str))
      else Some(s.(phases := s.phases[t := Missed(p.ptr, p.str)]))
    case Insert(t, address) =>
      var p := PhaseOf(s, t);
      if !p.Missed? then None
      else if p.str in s.names then Some(Answered(s, t, p.ptr, p.str))
      else if |s.names| >= MAX_COUNT || address in s.text then None
      else
        Some(Answered(s.(names := Interned(s.names, p.str), canon := s.canon + [address],
                         text := s.text[address := p.str]), t, p.ptr, p.str))
  }

  /** The log has grown by one answer of `t` for `str`. */
  predicate AnswersFor(s: State, s': State, t: int, str: string) {
    && |s'.log| == |s.log| + 1 && s.log <= s'.log
    && s'.log[|s.log|].thread == t && s'.log[|s.log|].str == str
  }

  /** Every call comes back with exactly one answer, for its own string, and is neither
  answered nor dropped before; no step touches the call of another thread. */
  lemma CallsAreAnswered(s: State, step: Step)
    requires |s.canon| == |s.names| && Next(s, step).Some?
    ensures var s', t := Next(s, step).value, step.thread;
            var str := if step.Call? then step.str else if PhaseOf(s, t).Idle? then "" else PhaseOf(s, t).str;
            && (if PhaseOf(s', t).Idle? then AnswersFor(s, s', t, str)
                else PhaseOf(s', t).str == str && s'.log == s.log)
            && forall u :: u != t ==> PhaseOf(s', u) == PhaseOf(s, u)
  {
  }

  /** The cache works: a thread that calls again with the same pointer and text is answered at
  once, with the same result. */
  lemma RepeatedCall(s: State, t: int, ptr: nat, str: string)
    requires BookShape(s) && str in s.names && |str| <= 255
    ensures var s1 := Answered(s, t, ptr, str);
            var s2 := Next(s1, Call(t, ptr, str));
            && s2.Some? && s2.value.log == s1.log + [s1.log[|s1.log| - 1]]
            && PhaseOf(s2.value, t).Idle? && s2.value.names == s.names
  {
  }

  /** A call can begin when the thread is idle, look when it has begun, and insert when it has
  missed, as long as the string or a place for it is there. */
  lemma CallsGoOn(s: State, t: int, ptr: nat, str: string, address: int)
    requires |s.canon| == |s.names|
    ensures Next(s, Call(t, ptr, str)).Some? <==> PhaseOf(s, t).Idle? && |str| <= 255
    ensures Next(s, Probe(t)).Some? <==> PhaseOf(s, t).Probing?
    ensures Next(s, Insert(t, address)).Some?
            <==> PhaseOf(s, t).Missed? && (PhaseOf(s, t).str in s.names || (|s.names| < 4096 && address !in s.text))
  {
  }

  ghost predicate Known(names: seq<string>, canon: seq<int>, id: int, canonical: int) {
    0 <= id < |names| == |canon| && canon[id] == canonical
  }

  ghost predicate AnswerOk(names: seq<string>, canon: seq<int>, a: Answer) {
    Known(names, canon, a.id, a.canonical) && names[a.id] == a.str
  }

  /** Some result with this id has been returned. */
  ghost predicate HandedOut(log: seq<Answer>, id: int) {
    exists i :: 0 <= i < |log| && log[i].id == id
  }

  ghost predicate LogOk(log: seq<Answer>, names: seq<string>, canon: seq<int>, upTo: int) {
    && (forall i :: 0 <= i < |log| ==> AnswerOk(names, canon, log[i]))
    && (forall k :: 0 <= k < upTo ==> HandedOut(log, k))
  }

  ghost predicate CachesOk(caches: map<Key, Remembered>, names: seq<string>, canon: seq<int>) {
    forall key :: key in caches ==> Known(names, canon, caches[key].id, caches[key].canonical)
  }

  /** The names are distinct, each has its own canonical copy, and every cached or returned
  result is the one that belongs to its string. */
  ghost predicate Inv(s: State) {
    && BookShape(s)
    && CachesOk(s.caches, s.names, s.canon)
    && LogOk(s.log, s.names, s.canon, |s.names|)
  }

  lemma LogExtends(log: seq<Answer>, names: seq<string>, canon: seq<int>, upTo: int, a: Answer)
    requires LogOk(log, names, canon, upTo) && AnswerOk(names, canon, a)
    ensures LogOk(log + [a], names, canon, upTo)
    ensures a.id == upTo ==> LogOk(log + [a], names, canon, upTo + 1)
  {
    hide AnswerOk;
    forall k | 0 <= k < upTo ensures HandedOut(log + [a], k) {
      assert HandedOut(log, k);
      var i :| 0 <= i < |log| && log[i].id == k;
      assert (log + [a])[i].id == k;
    }
    assert (log + [a])[|log|] == a;
  }

  /** Old results stay right when the book grows. */
  lemma BookExtends(log: seq<Answer>, caches: map<Key, Remembered>, names: seq<string>, canon: seq<int>,
                    upTo: int, str: string, address: int)
    requires LogOk(log, names, canon, upTo) && CachesOk(caches, names, canon) && |names| == |canon|
    ensures LogOk(log, names + [str], canon + [address], upTo)
    ensures CachesOk(caches, names + [str], canon + [address])
  {
    forall i | 0 <= i < |log| ensures AnswerOk(names + [str], canon + [address], log[i]) {
      assert AnswerOk(names, canon, log[i]);
    }
  }

  ghost predicate BookShape(s: State) {
    && |s.canon| == |s.names| <= MAX_COUNT
    && (forall j, k :: 0 <= j < k < |s.names| ==> s.names[j] != s.names[k] && s.canon[j] != s.canon[k])
    && (forall k :: 0 <= k < |s.names| ==> s.canon[k] in s.text && s.text[s.canon[k]] == s.names[k])
  }

  lemma AnsweredKeepsInv(s: State, t: int, ptr: nat, str: string, upTo: int)
    requires BookShape(s) && CachesOk(s.caches, s.names, s.canon) && LogOk(s.log, s.names, s.canon, upTo)
    requires str in s.names && (upTo == |s.names| || upTo == |s.names| - 1 == IdOf(s.names, str))
    ensures Inv(Answered(s, t, ptr, str))
  {
    hide LogOk;
    var k := IdOf(s.names, str);
    LogExtends(s.log, s.names, s.canon, upTo, Answer(t, str, k, s.canon[k]));
  }

  lemma CallKeepsInv(s: State, t: int, ptr: nat, str: string)
    requires Inv(s) && Next(s, Call(t, ptr, str)).Some?
    ensures Inv(Next(s, Call(t, ptr, str)).value)
  {
    hide LogOk;
    var key := Key(t, IndexOf(ptr));
    if key in s.caches && s.caches[key].canonical in s.text && s.text[s.caches[key].canonical] == str {
      LogExtends(s.log, s.names, s.canon, |s.names|, Answer(t, str, s.caches[key].id, s.caches[key].canonical));
    }
  }

  /** The insert of a string that no other thread got in first. */
  lemma InsertKeepsInv(s: State, t: int, address: int)
    requires Inv(s) && PhaseOf(s, t).Missed? && PhaseOf(s, t).str !in s.names
    requires |s.names| < MAX_COUNT && address !in s.text
    ensures Inv(Next(s, Insert(t, address)).value)
  {
    hide LogOk, CachesOk;
    var p := PhaseOf(s, t);
    var grown := s.(names := s.names + [p.str], canon := s.canon + [address], text := s.text[address := p.str]);
    BookExtends(s.log, s.caches, s.names, s.canon, |s.names|, p.str, address);
    IdOfLast(s.names, p.str);
    assert BookShape(grown);
    AnsweredKeepsInv(grown, t, p.ptr, p.str, |s.names|);
  }

  lemma IdOfLast(names: seq<string>, str: string)
    requires str !in names
    ensures IdOf(names + [str], str) == |names|
  {
    assert (names + [str])[|names|] == str;
    assert forall j :: 0 <= j < |names| ==> names[j] in names && (names + [str])[j] == names[j];
  }

  lemma NextKeepsInv(s: State, step: Step)
    requires Inv(s) && Next(s, step).Some?
    ensures Inv(Next(s, step).value)
  {
    match step
    case Call(t, ptr, str) => CallKeepsInv(s, t, ptr, str);
    case Probe(t) =>
      var p := PhaseOf(s, t);
      if p.str in s.names {
        AnsweredKeepsInv(s, t, p.ptr, p.str, |s.names|);
      }
    case Insert(t, address) =>
      var p := PhaseOf(s, t);
      if p.str in s.names {
        AnsweredKeepsInv(s, t, p.ptr, p.str, |s.names|);
      } else {
        InsertKeepsInv(s, t, address);
      }
  }

  ghost predicate Leads(s: State, step: Step, s': State) {
    |s.canon| == |s.names| && Next(s, step) == Some(s')
  }

  ghost predicate IsRun(states: seq<State>, steps: seq<Step>) {
    && |states| == |steps| + 1 && states[0] == START
    && (forall i :: 0 <= i < |steps| ==> Leads(states[i], steps[i], states[i + 1]))
  }

  lemma {:induction false} RunKeepsInv(states: seq<State>, steps: seq<Step>, k: nat)
    requires IsRun(states, steps) && k < |states|
    ensures Inv(states[k])
  {
    if k > 0 {
      hide Next, Inv;
      RunKeepsInv(states, steps, k - 1);
      assert Leads(states[k - 1], steps[k - 1], states[k]);
      NextKeepsInv(states[k - 1], steps[k - 1]);
    } else {
      assert Inv(START);
    }
  }

  /** The map from strings to ids only grows. */
  lemma {:induction false} NamesOnlyGrow(states: seq<State>, steps: seq<Step>, j: nat, k: nat)
    requires IsRun(states, steps) && j <= k < |states|
    ensures states[j].names <= states[k].names && states[j].canon <= states[k].canon
    ensures states[j].log <= states[k].log
    decreases k
  {
    if j < k {
      NamesOnlyGrow(states, steps, j, k - 1);
      assert Leads(states[k - 1], steps[k - 1], states[k]);
      StepExtends(states[k - 1], steps[k - 1]);
    }
  }

  lemma StepExtends(s: State, step: Step)
    requires |s.canon| == |s.names| && Next(s, step).Some?
    ensures var s' := Next(s, step).value; s.names <= s'.names && s.canon <= s'.canon && s.log <= s'.log
  {
  }

  /** In every interleaving, any two results ever returned, by whichever threads and along
  whichever paths, have the same id and the same canonical pointer exactly when they were
  asked for the same string. */
  lemma AnswersAgree(states: seq<State>, steps: seq<Step>, k: nat, i: nat, j: nat)
    requires IsRun(states, steps) && k < |states| && i < |states[k].log| && j < |states[k].log|
    ensures var x, y := states[k].log[i], states[k].log[j];
            && (x.str == y.str <==> x.id == y.id)
            && (x.str == y.str <==> x.canonical == y.canonical)
  {
    RunKeepsInv(states, steps, k);
    var s := states[k];
    assert AnswerOk(s.names, s.canon, s.log[i]) && AnswerOk(s.names, s.canon, s.log[j]);
  }

  /** The ids handed out are 0, 1, 2, ... without a gap. */
  lemma IdsAreDense(states: seq<State>, steps: seq<Step>, k: nat, id: int)
    requires IsRun(states, steps) && k < |states|
    ensures HandedOut(states[k].log, id) <==> 0 <= id < |states[k].names|
  {
    RunKeepsInv(states, steps, k);
    forall i | 0 <= i < |states[k].log| ensures 0 <= states[k].log[i].id < |states[k].names| {
      assert AnswerOk(states[k].names, states[k].canon, states[k].log[i]);
    }
  }
}
