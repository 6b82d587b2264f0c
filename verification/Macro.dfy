/** Pattern macros: matching a pattern against arguments and expanding a template
with the bindings found (bootstrap/macro.c:321-521, 523-604, 686-703). */
module Macro {
  import opened Cells
  import opened Options

  datatype Binding = Binding(name: string, value: Cell)

  type Bindings = seq<Binding>

  predicate IsPatternVar(c: Cell) {
    c.Sym? && c.name != "" && c.name[0] == '$'
  }

  predicate IsEllipsis(c: Cell) {
    c == Sym("...")
  }

  /** `has_ellipsis_rest`: the list `($var ...)` and nothing after it. */
  predicate HasEllipsisRest(c: Cell)
    ensures HasEllipsisRest(c) ==> c.Pair? && IsPatternVar(c.car)
  {
    c.Pair? && IsPatternVar(c.car) && c.cdr.Pair? && IsEllipsis(c.cdr.car) && c.cdr.cdr.Nil?
  }

  /** The dotted form `(pat . $rest)`. */
  predicate HasDottedRest(c: Cell) {
    c.Pair? && IsPatternVar(c.cdr)
  }

  /** A quoted literal standing first in a list that has no dotted rest. */
  predicate QuotedHead(p: Cell) {
    p.Pair? && !HasDottedRest(p) && p.car.Pair? && p.car.car == Sym("quote")
  }

  function Literal(p: Cell): (r: Cell)
    requires QuotedHead(p)
  {
    Car(p.car.cdr)
  }

  // ----- bindings -----

  function Lookup(b: Bindings, name: string): (r: Option<Cell>)
  {
    if b == [] then None
    else if b[0].name == name then Some(b[0].value)
    else Lookup(b[1..], name)
  }

  /** The merge loop puts each binding of `rest` in front of those already there. */
  function Merge(head: Bindings, rest: Bindings): (r: Bindings)
    ensures forall x :: x in r <==> x in head || x in rest
    decreases rest
  {
    if rest == [] then head
    else
      assert forall x :: x in rest <==> x == rest[0] || x in rest[1..];
      Merge([rest[0]] + head, rest[1..])
  }

  /** Every binding listed in `part` is the one that `whole` finds for its name. */
  ghost predicate Agrees(part: Bindings, whole: Bindings) {
    forall x :: x in part ==> Lookup(whole, x.name) == Some(x.value)
  }

  /** A name bound twice is bound to one value. */
  ghost predicate Consistent(b: Bindings) {
    forall x, y :: x in b && y in b && x.name == y.name ==> x == y
  }

  lemma {:induction false} LookupFinds(b: Bindings, name: string)
    ensures match Lookup(b, name)
            case Some(v) => Binding(name, v) in b
            case None => forall x :: x in b ==> x.name != name
  {
    if b != [] && b[0].name != name {
      LookupFinds(b[1..], name);
    }
  }

  lemma ConsistentIsSelfAgreement(b: Bindings)
    ensures Consistent(b) <==> Agrees(b, b)
  {
    forall x | x in b && Consistent(b) ensures Lookup(b, x.name) == Some(x.value) {
      LookupFinds(b, x.name);
    }
  }

  // ----- matching -----

  /** `macro_pattern_match`; `None` is the NULL of a failed match. */
  function Match(p: Cell, a: Cell): (r: Option<Bindings>)
    decreases p
  {
    if p.Nil? then (if a.Nil? then Some([]) else None)
    else if IsPatternVar(p) then Some([Binding(p.name, a)])
    else if !p.Pair? then (if p == a then Some([]) else None)
    else if !a.Pair? && !a.Nil? then None
    else if HasDottedRest(p) then
      if !a.Pair? then None
      else
        match Match(p.car, a.car)
        case None => None
        case Some(head) => Some([Binding(p.cdr.name, a.cdr)] + head)
    else if HasEllipsisRest(p) then Some([Binding(p.car.name, a)])
    else if !a.Pair? then None
    else if QuotedHead(p) then
      if Literal(p) == a.car then Match(p.cdr, a.cdr) else None
    else
      match (Match(p.car, a.car), Match(p.cdr, a.cdr))
      case (Some(head), Some(rest)) => Some(Merge(head, rest))
      case _ => None
  }

  // ----- what a match means: the arguments are an instance of the pattern -----

  /** The names a pattern binds. */
  function Vars(p: Cell): (r: set<string>) {
    if IsPatternVar(p) then {p.name}
    else if !p.Pair? then {}
    else if HasEllipsisRest(p) then {p.car.name}
    else if QuotedHead(p) then Vars(p.cdr)
    else Vars(p.car) + Vars(p.cdr)
  }

  /** The pattern with a value in place of each variable, a list in place of each
  `$var ...` and the bare literal in place of a quoted one. */
  function Instance(p: Cell, values: map<string, Cell>): (r: Cell)
    requires Vars(p) <= values.Keys
  {
    if IsPatternVar(p) then values[p.name]
    else if !p.Pair? then p
    else if HasEllipsisRest(p) then values[p.car.name]
    else if QuotedHead(p) then Pair(Literal(p), Instance(p.cdr, values))
    else Pair(Instance(p.car, values), Instance(p.cdr, values))
  }

  /** The variables before an ellipsis stand for lists. */
  predicate RestsAreLists(p: Cell, values: map<string, Cell>)
    requires Vars(p) <= values.Keys
  {
    if !p.Pair? then true
    else if HasEllipsisRest(p) then values[p.car.name].Pair? || values[p.car.name].Nil?
    else if QuotedHead(p) then RestsAreLists(p.cdr, values)
    else RestsAreLists(p.car, values) && RestsAreLists(p.cdr, values)
  }

  ghost predicate Assigns(values: map<string, Cell>, b: Bindings) {
    forall x :: x in b ==> x.name in values && values[x.name] == x.value
  }

  lemma {:induction false} MatchBindsVars(p: Cell, a: Cell)
    requires Match(p, a).Some?
    ensures forall n :: n in Vars(p) <==> exists x :: x in Match(p, a).value && x.name == n
    decreases p
  {
    var b := Match(p, a).value;
    if p.Nil? {
    } else if IsPatternVar(p) {
      assert Binding(p.name, a) in b;
    } else if !p.Pair? {
    } else if HasDottedRest(p) {
      MatchBindsVars(p.car, a.car);
      var head := Match(p.car, a.car).value;
      assert forall x :: x in b <==> x == Binding(p.cdr.name, a.cdr) || x in head;
      assert Binding(p.cdr.name, a.cdr) in b;
    } else if HasEllipsisRest(p) {
      assert Binding(p.car.name, a) in b;
    } else if QuotedHead(p) {
      MatchBindsVars(p.cdr, a.cdr);
    } else {
      MatchBindsVars(p.car, a.car);
      MatchBindsVars(p.cdr, a.cdr);
    }
  }

  /** Matching succeeds with bindings that `values` extends exactly when `values` makes
  the arguments an instance of the pattern. */
  lemma {:induction false} MatchIsInstance(p: Cell, a: Cell, values: map<string, Cell>)
    requires Vars(p) <= values.Keys
    ensures (RestsAreLists(p, values) && Instance(p, values) == a)
            <==> Match(p, a).Some? && Assigns(values, Match(p, a).value)
    decreases p
  {
    if p.Pair? && a.Pair? && !HasEllipsisRest(p) {
      MatchIsInstance(p.cdr, a.cdr, values);
      if !QuotedHead(p) {
        MatchIsInstance(p.car, a.car, values);
      }
    }
  }

  ghost predicate IsInstance(p: Cell, a: Cell) {
    exists values: map<string, Cell> ::
      Vars(p) <= values.Keys && RestsAreLists(p, values) && Instance(p, values) == a
  }

  function ValuesOf(b: Bindings): (r: map<string, Cell>)
    ensures forall n :: n in r <==> exists x :: x in b && x.name == n
    ensures forall n :: n in r ==> Binding(n, r[n]) in b
  {
    if b == [] then map[]
    else
      var r := ValuesOf(b[1..])[b[0].name := b[0].value];
      assert forall x :: x in b <==> x == b[0] || x in b[1..];
      assert forall n :: n in r <==> n == b[0].name || n in ValuesOf(b[1..]);
      r
  }

  /** Soundness and completeness for every pattern: the arguments are an instance exactly
  when matching succeeds and a repeated variable met one value throughout. */
  lemma MatchExact(p: Cell, a: Cell)
    ensures IsInstance(p, a) <==> Match(p, a).Some? && Consistent(Match(p, a).value)
  {
    if IsInstance(p, a) {
      var values: map<string, Cell> :|
        Vars(p) <= values.Keys && RestsAreLists(p, values) && Instance(p, values) == a;
      MatchIsInstance(p, a, values);
    }
    if Match(p, a).Some? && Consistent(Match(p, a).value) {
      var b := Match(p, a).value;
      var values := ValuesOf(b);
      MatchBindsVars(p, a);
      forall x | x in b ensures x.name in values && values[x.name] == x.value {
        assert Binding(x.name, values[x.name]) in b;
      }
      MatchIsInstance(p, a, values);
    }
  }

  // ----- linear patterns -----

  /** No variable occurs twice. */
  predicate Linear(p: Cell) {
    if !p.Pair? || HasEllipsisRest(p) then true
    else if QuotedHead(p) then Linear(p.cdr)
    else Linear(p.car) && Linear(p.cdr) && Vars(p.car) !! Vars(p.cdr)
  }

  lemma ConsistentIfShort(b: Bindings)
    ensures |b| <= 1 ==> Consistent(b)
  {
  }

  lemma {:induction false} LinearIsConsistent(p: Cell, a: Cell)
    requires Linear(p) && Match(p, a).Some?
    ensures Consistent(Match(p, a).value)
    decreases p
  {
    hide Consistent;
    ConsistentIfShort(Match(p, a).value);
    if p.Pair? && a.Pair? && !HasEllipsisRest(p) {
      LinearIsConsistent(p.cdr, a.cdr);
      if !QuotedHead(p) {
        PartsConsistent(p, a);
        LinearIsConsistent(p.car, a.car);
        MatchBindsVars(p.car, a.car);
        MatchBindsVars(p.cdr, a.cdr);
        JoinConsistent(Match(p.car, a.car).value, Match(p.cdr, a.cdr).value, Match(p, a).value,
                       Vars(p.car), Vars(p.cdr));
      }
    }
  }

  /** Bindings of disjoint names do not conflict. */
  lemma JoinConsistent(b: Bindings, c: Bindings, joined: Bindings, v: set<string>, w: set<string>)
    requires Consistent(b) && Consistent(c) && v !! w
    requires forall n :: n in v <==> exists x :: x in b && x.name == n
    requires forall n :: n in w <==> exists x :: x in c && x.name == n
    requires forall x :: x in joined <==> x in b || x in c
    ensures Consistent(joined)
  {
    forall x, y | x in joined && y in joined && x.name == y.name ensures x == y {
      assert x in b ==> x.name in v;
      assert x in c ==> x.name in w;
      assert y in b ==> y.name in v;
      assert y in c ==> y.name in w;
    }
  }

  lemma PartsConsistent(p: Cell, a: Cell)
    requires p.Pair? && a.Pair? && !HasEllipsisRest(p) && !QuotedHead(p) && Match(p, a).Some?
    ensures Match(p.car, a.car).Some? && Match(p.cdr, a.cdr).Some?
    ensures forall x :: x in Match(p, a).value <==>
              x in Match(p.car, a.car).value || x in Match(p.cdr, a.cdr).value
  {
    if HasDottedRest(p) {
      assert Match(p.cdr, a.cdr).value == [Binding(p.cdr.name, a.cdr)];
    }
  }

  /** A linear pattern matches exactly its instances. */
  lemma LinearMatchExact(p: Cell, a: Cell)
    requires Linear(p)
    ensures Match(p, a).Some? <==> IsInstance(p, a)
  {
    MatchExact(p, a);
    if Match(p, a).Some? {
      LinearIsConsistent(p, a);
    }
  }

  /** The value the legacy splice form `(. $rest)` stands for, where it applies. */
  function Splice(t: Cell, b: Bindings): (r: Option<Cell>) {
    if t.Pair? && t.car == Sym(".") && IsPatternVar(Car(t.cdr)) then Lookup(b, Car(t.cdr).name) else None
  }

  // ----- expansion -----

  /** `macro_expand_template`. */
  function Expand(t: Cell, b: Bindings): (r: Cell)
    decreases t
  {
    if IsPatternVar(t) then
      match Lookup(b, t.name)
      case Some(v) => v
      case None => t
    else if !t.Pair? then t
    else if HasEllipsisRest(t) then
      match Lookup(b, t.car.name)
      case Some(v) => v
      case None => Nil
    else if Splice(t, b).Some? then Splice(t, b).value
    else if HasEllipsisRest(t.cdr) && Lookup(b, t.cdr.car.name).Some? then
      Pair(Expand(t.car, b), Lookup(b, t.cdr.car.name).value)
    else Pair(Expand(t.car, b), Expand(t.cdr, b))
  }

  /** No list the expander walks begins with a dot and a variable. */
  predicate NoSplice(p: Cell) {
    if !p.Pair? || HasEllipsisRest(p) then true
    else !(p.car == Sym(".") && IsPatternVar(Car(p.cdr))) && NoSplice(p.car) && NoSplice(p.cdr)
  }

  /** No quoted literal stands where the matcher would strip its quote. */
  predicate NoQuoted(p: Cell) {
    if !p.Pair? || HasEllipsisRest(p) then true
    else !QuotedHead(p) && NoQuoted(p.car) && NoQuoted(p.cdr)
  }

  /** Away from the special forms a list expands part by part. */
  lemma ExpandPair(t: Cell, b: Bindings)
    requires t.Pair? && !HasEllipsisRest(t) && Splice(t, b).None?
    ensures Expand(t, b) == Pair(Expand(t.car, b), Expand(t.cdr, b))
  {
  }

  /** A quoted form never expands to the bare literal it holds. */
  lemma {:induction false} QuoteNotStripped(q: Cell, b: Bindings)
    requires q.Pair? && q.car == Sym("quote")
    ensures Expand(q, b) != Car(q.cdr)
    decreases q
  {
    var t := q.cdr;
    ExpandPair(q, b);
    var l := Car(t);
    if l.Pair? && l.car == Sym("quote") {
      assert !HasEllipsisRest(t) && Splice(t, b).None?;
      ExpandPair(t, b);
      QuoteNotStripped(l, b);
    }
  }

  ghost predicate Covers(whole: Bindings, part: Bindings) {
    forall x :: x in part ==> Lookup(whole, x.name).Some?
  }

  /** Expanding a pattern under bindings that agree with its own match rebuilds the
  arguments exactly when no quote was stripped and no splice form applies. */
  lemma {:induction false} RebuildUnder(p: Cell, a: Cell, b: Bindings)
    requires Match(p, a).Some? && Agrees(Match(p, a).value, b)
    ensures Expand(p, b) == a <==> NoQuoted(p) && NoSplice(p)
    decreases p
  {
    if p.Pair? && !HasEllipsisRest(p) {
      if p.car == Sym(".") && IsPatternVar(Car(p.cdr)) {
        SpliceLoses(p, a, b);
      } else {
        ExpandPair(p, b);
        if QuotedHead(p) {
          QuoteNotStripped(p.car, b);
        } else {
          PartsConsistent(p, a);
          RebuildUnder(p.car, a.car, b);
          RebuildUnder(p.cdr, a.cdr, b);
        }
      }
    } else if HasEllipsisRest(p) {
      assert Binding(p.car.name, a) in Match(p, a).value;
    } else if IsPatternVar(p) {
      assert Binding(p.name, a) in Match(p, a).value;
    }
  }

  /** A splice form expands to a proper part of the arguments it matched. */
  lemma SpliceLoses(p: Cell, a: Cell, b: Bindings)
    requires p.Pair? && p.car == Sym(".") && IsPatternVar(Car(p.cdr))
    requires Match(p, a).Some? && Agrees(Match(p, a).value, b)
    ensures Expand(p, b) != a
  {
    var r := p.cdr;
    var name := r.car.name;
    PartsConsistent(p, a);
    var rest := Match(r, a.cdr).value;
    if HasEllipsisRest(r) {
      assert Binding(name, a.cdr) in rest;
    } else if HasDottedRest(r) {
      PartsConsistent(r, a.cdr);
      assert Match(r.car, a.cdr.car).value == [Binding(name, a.cdr.car)];
      assert Binding(name, a.cdr.car) in Match(p, a).value;
    } else {
      PartsConsistent(r, a.cdr);
      assert Match(r.car, a.cdr.car).value == [Binding(name, a.cdr.car)];
      assert Binding(name, a.cdr.car) in Match(p, a).value;
    }
  }

  /** Without splices, rebuilding the arguments forces agreement on every variable. */
  lemma {:induction false} RebuiltAgrees(p: Cell, a: Cell, b: Bindings)
    requires Match(p, a).Some? && Covers(b, Match(p, a).value)
    requires NoSplice(p) && Expand(p, b) == a
    ensures Agrees(Match(p, a).value, b) && NoQuoted(p)
    decreases p
  {
    if p.Pair? && !HasEllipsisRest(p) {
      ExpandPair(p, b);
      if QuotedHead(p) {
        QuoteNotStripped(p.car, b);
      } else {
        PartsConsistent(p, a);
        RebuiltAgrees(p.car, a.car, b);
        RebuiltAgrees(p.cdr, a.cdr, b);
      }
    }
  }

  lemma CoversItself(b: Bindings)
    ensures Covers(b, b)
  {
    forall x | x in b ensures Lookup(b, x.name).Some? {
      LookupFinds(b, x.name);
    }
  }

  /** Matching then expanding the pattern itself gives back the arguments of a linear
  pattern exactly when it has no quoted literal and no splice form. */
  lemma LinearRebuild(p: Cell, a: Cell)
    requires Linear(p) && Match(p, a).Some?
    ensures Expand(p, Match(p, a).value) == a <==> NoQuoted(p) && NoSplice(p)
  {
    var b := Match(p, a).value;
    LinearIsConsistent(p, a);
    ConsistentIsSelfAgreement(b);
    RebuildUnder(p, a, b);
  }

  /** With repeated variables the condition also asks that they met one value. */
  lemma RebuildExact(p: Cell, a: Cell)
    requires NoSplice(p) && Match(p, a).Some?
    ensures Expand(p, Match(p, a).value) == a <==> NoQuoted(p) && Consistent(Match(p, a).value)
  {
    var b := Match(p, a).value;
    ConsistentIsSelfAgreement(b);
    CoversItself(b);
    if Expand(p, b) == a {
      RebuiltAgrees(p, a, b);
    } else if Consistent(b) {
      RebuildUnder(p, a, b);
    }
  }

  /** A matched quoted literal comes back with its quote still on. */
  lemma QuotedLiteralNotRebuilt()
    ensures var p := Pair(Pair(Sym("quote"), Pair(Sym("a"), Nil)), Nil);
            var a := Pair(Sym("a"), Nil);
            Linear(p) && Match(p, a) == Some([]) && Expand(p, []) == p != a
  {
    var q := Pair(Sym("quote"), Pair(Sym("a"), Nil));
    var p := Pair(q, Nil);
    assert QuotedHead(p);
    assert Match(Nil, Nil) == Some([]);
    ExpandPair(p, []);
    ExpandPair(q, []);
    ExpandPair(q.cdr, []);
  }

  // ----- the loops -----

  /** `lookup_binding`. */
  method LookupBinding(bindings: Bindings, name: string) returns (r: Option<Cell>)
    ensures r == Lookup(bindings, name)
  {
    var i := 0;
    while i < |bindings|
      invariant 0 <= i <= |bindings| && Lookup(bindings, name) == Lookup(bindings[i..], name)
    {
      if bindings[i].name == name {
        return Some(bindings[i].value);
      }
      assert bindings[i..][1..] == bindings[i + 1..];
      i := i + 1;
    }
    r := None;
  }

  /** The merge loop at the end of the list case. */
  method MergeBindings(head: Bindings, rest: Bindings) returns (r: Bindings)
    ensures r == Merge(head, rest)
  {
    r := head;
    var i := 0;
    while i < |rest|
      invariant 0 <= i <= |rest| && Merge(head, rest) == Merge(r, rest[i..])
    {
      assert rest[i..][1..] == rest[i + 1..];
      r := [rest[i]] + r;
      i := i + 1;
    }
  }

  datatype Clause = Clause(pattern: Cell, templ: Cell)

  /** `macro_apply_pattern`: the first clause whose pattern matches is expanded; `None` is
  the no-matching-pattern error. */
  method ApplyPattern(clauses: seq<Clause>, args: Cell) returns (r: Option<Cell>)
    ensures r.None? <==> forall k :: 0 <= k < |clauses| ==> Match(clauses[k].pattern, args).None?
    ensures r.Some? ==>
              exists k ::
                && 0 <= k < |clauses| && Match(clauses[k].pattern, args).Some?
                && (forall j :: 0 <= j < k ==> Match(clauses[j].pattern, args).None?)
                && r.value == Expand(clauses[k].templ, Match(clauses[k].pattern, args).value)
  {
    var i := 0;
    while i < |clauses|
      invariant 0 <= i <= |clauses|
      invariant forall j :: 0 <= j < i ==> Match(clauses[j].pattern, args).None?
    {
      var bindings := Match(clauses[i].pattern, args);
      if bindings.Some? {
        return Some(Expand(clauses[i].templ, bindings.value));
      }
      i := i + 1;
    }
    r := None;
  }
}
