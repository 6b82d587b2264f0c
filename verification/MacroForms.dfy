/** Patterns and templates as written (bootstrap/macro.c:321-604). */
module MacroForms {
  // Their meaning is the one the language gives them (bootstrap/tests/test_rest_patterns.test:14-17).
  //
  // `Form` is the abstract syntax and `Write` spells it with the literal symbols of the source.
  // What a form means is defined here without the recognisers of the matcher.

  import opened Cells
  import opened Options
  import opened Macro

  /** `$n`, an atom, `($n ...)`, or a pair. */
  datatype Form = Var(n: string) | Atom(c: Cell) | Rest(n: string) | Cons(head: Form, tail: Form)

  function Write(f: Form): (c: Cell) {
    match f
    case Var(n) => Sym("$" + n)
    case Atom(c) => c
    case Rest(n) => Pair(Sym("$" + n), Pair(Sym("..."), Nil))
    case Cons(h, t) => Pair(Write(h), Write(t))
  }

  /** Atoms are no pairs and no `$` symbols, and a variable before a final `...` is written
  as `Rest`. */
  predicate Proper(f: Form) {
    match f
    case Var(_) => true
    case Atom(c) => !c.Pair? && (c.Sym? ==> c.name == "" || c.name[0] != '$')
    case Rest(_) => true
    case Cons(h, t) => Proper(h) && Proper(t) && !(h.Var? && t == Cons(Atom(Sym("...")), Atom(Nil)))
  }

  function Read(c: Cell): (f: Form) {
    match c
    case Pair(h, t) =>
      if Read(h).Var? && Read(t) == Cons(Atom(Sym("...")), Atom(Nil)) then Rest(Read(h).n)
      else Cons(Read(h), Read(t))
    case Sym(n) => if n != "" && n[0] == '$' then Var(n[1..]) else Atom(c)
    case _ => Atom(c)
  }

  /** Every cell is written by exactly one proper form. */
  lemma {:induction false} ReadWrite(c: Cell)
    ensures Proper(Read(c)) && Write(Read(c)) == c
    decreases c
  {
    match c
    case Pair(h, t) =>
      ReadWrite(h);
      ReadWrite(t);
      assert Write(Cons(Atom(Sym("...")), Atom(Nil))) == Pair(Sym("..."), Nil);
    case Sym(n) => assert n != "" && n[0] == '$' ==> "$" + n[1..] == n;
    case _ =>
  }

  lemma {:induction false} WriteRead(f: Form)
    requires Proper(f)
    ensures Read(Write(f)) == f
  {
    match f
    case Var(n) => assert ("$" + n)[1..] == n;
    case Atom(_) =>
    case Rest(n) =>
      assert ("$" + n)[1..] == n;
      assert Read(Pair(Sym("..."), Nil)) == Cons(Atom(Sym("...")), Atom(Nil));
    case Cons(h, t) =>
      WriteRead(h);
      WriteRead(t);
  }

  // ----- patterns -----

  function Names(f: Form): (r: set<string>) {
    match f
    case Var(n) => {"$" + n}
    case Atom(_) => {}
    case Rest(n) => {"$" + n}
    case Cons(h, t) => if h.Cons? && h.head == Atom(Sym("quote")) && !t.Var? then Names(t) else Names(h) + Names(t)
  }

  /** The arguments `a` are what the pattern describes, its variables standing for `values`:
  any value for a variable, a list for a rest, the bare literal for a quoted one. */
  predicate Describes(f: Form, values: map<string, Cell>, a: Cell)
    requires Names(f) <= values.Keys
  {
    match f
    case Var(n) => a == values["$" + n]
    case Atom(c) => a == c
    case Rest(n) => (a.Pair? || a.Nil?) && a == values["$" + n]
    case Cons(h, t) =>
      a.Pair? &&
      if h.Cons? && h.head == Atom(Sym("quote")) && !t.Var? then
        a.car == Car(Write(h.tail)) && Describes(t, values, a.cdr)
      else Describes(h, values, a.car) && Describes(t, values, a.cdr)
  }

  /** What the recognisers say about a written form. */
  lemma Recognised(f: Form)
    requires Proper(f)
    ensures IsPatternVar(Write(f)) <==> f.Var?
    ensures IsEllipsis(Write(f)) <==> f == Atom(Sym("..."))
    ensures HasEllipsisRest(Write(f)) <==> f.Rest?
    ensures f.Cons? ==> (HasDottedRest(Write(f)) <==> f.tail.Var?)
    ensures f.Cons? ==> (QuotedHead(Write(f)) <==> f.head.Cons? && f.head.head == Atom(Sym("quote")) && !f.tail.Var?)
  {
    WriteRead(f);
    if f.Cons? {
      WriteRead(f.head);
      WriteRead(f.tail);
      if f.head.Cons? {
        WriteRead(f.head.head);
      }
    }
  }

  lemma {:induction false} NamesAreVars(f: Form)
    requires Proper(f)
    ensures Vars(Write(f)) == Names(f)
  {
    Recognised(f);
    if f.Cons? {
      NamesAreVars(f.head);
      NamesAreVars(f.tail);
    }
  }

  lemma {:induction false} DescribesInstance(f: Form, values: map<string, Cell>, a: Cell)
    requires Proper(f) && Names(f) <= values.Keys && Vars(Write(f)) == Names(f)
    ensures Describes(f, values, a) <==> RestsAreLists(Write(f), values) && Instance(Write(f), values) == a
  {
    Recognised(f);
    if f.Cons? {
      NamesAreVars(f.head);
      NamesAreVars(f.tail);
      if a.Pair? {
        DescribesInstance(f.tail, values, a.cdr);
        if !QuotedHead(Write(f)) {
          DescribesInstance(f.head, values, a.car);
        }
      }
    }
  }

  /** For every written pattern: matching succeeds with bindings that `values` extends exactly
  when the pattern with these values describes the arguments; exactly its names are bound. */
  lemma MatchesWhatItDescribes(f: Form, values: map<string, Cell>, a: Cell)
    requires Proper(f) && Names(f) <= values.Keys
    ensures Describes(f, values, a) <==> Match(Write(f), a).Some? && Assigns(values, Match(Write(f), a).value)
    ensures Match(Write(f), a).Some? ==>
              forall n :: n in Names(f) <==> exists x :: x in Match(Write(f), a).value && x.name == n
  {
    NamesAreVars(f);
    DescribesInstance(f, values, a);
    MatchIsInstance(Write(f), a, values);
    if Match(Write(f), a).Some? {
      MatchBindsVars(Write(f), a);
    }
  }

  // ----- templates -----

  function Bound(n: string, bound: map<string, Cell>): (r: Option<Cell>) {
    if "$" + n in bound then Some(bound["$" + n]) else None
  }

  /** The variable that stands first in a list. */
  function First(f: Form): (r: Option<string>) {
    match f
    case Rest(n) => Some(n)
    case Cons(Var(n), _) => Some(n)
    case _ => None
  }

  /** The template with the bound values filled in: a rest gives its list as the tail, and
  `(. $n ...)` is the list itself; an unbound variable stays and an unbound rest is empty. */
  function Fill(f: Form, bound: map<string, Cell>): (c: Cell) {
    match f
    case Var(n) => (match Bound(n, bound) case Some(v) => v case None => Sym("$" + n))
    case Atom(c) => c
    case Rest(n) => (match Bound(n, bound) case Some(v) => v case None => Nil)
    case Cons(h, t) =>
      if h == Atom(Sym(".")) && First(t).Some? && Bound(First(t).value, bound).Some? then
        Bound(First(t).value, bound).value
      else Pair(Fill(h, bound), Fill(t, bound))
  }

  /** The bindings that `bound` lists: the first one of each name. */
  ghost predicate Finds(b: Bindings, bound: map<string, Cell>) {
    forall n :: Lookup(b, n) == if n in bound then Some(bound[n]) else None
  }

  lemma SpliceWritten(f: Form, b: Bindings, bound: map<string, Cell>)
    requires Proper(f) && f.Cons? && Finds(b, bound)
    ensures Splice(Write(f), b) ==
              if f.head == Atom(Sym(".")) && First(f.tail).Some? then Bound(First(f.tail).value, bound) else None
  {
    WriteRead(f.head);
    if f.tail.Cons? {
      Recognised(f.tail.head);
      if f.tail.head.Var? {
        assert IsPatternVar(Write(f.tail).car);
      }
    }
  }

  /** For every written template: expansion fills in what the bindings find. */
  lemma {:induction false} ExpandsToFill(f: Form, b: Bindings, bound: map<string, Cell>)
    requires Proper(f) && Finds(b, bound)
    ensures Expand(Write(f), b) == Fill(f, bound)
  {
    Recognised(f);
    if f.Cons? {
      SpliceWritten(f, b, bound);
      ExpandsToFill(f.head, b, bound);
      ExpandsToFill(f.tail, b, bound);
      Recognised(f.tail);
    }
  }

  // ----- the forms as the programs write them -----

  /** A variable takes anything; another atom takes only itself. */
  lemma AtomsMatch(n: string, c: Cell, a: Cell)
    ensures n != "" && n[0] == '$' ==> Match(Sym(n), a) == Some([Binding(n, a)])
    ensures !c.Pair? && (c.Sym? ==> c.name == "" || c.name[0] != '$') ==>
              Match(c, a) == (if c == a then Some([]) else None)
  {
  }

  /** `(head $rest ...)` takes every list with a first element that `head` takes; the rest of
  the list, empty or not, goes to `$rest`. */
  lemma RestMatches(head: Cell, rest: string, a: Cell)
    requires rest != "" && rest[0] == '$' && (head.Pair? ==> head.car != Sym("quote"))
    ensures var p := Pair(head, Pair(Sym(rest), Pair(Sym("..."), Nil)));
            Match(p, a) ==
              if a.Pair? && (a.cdr.Pair? || a.cdr.Nil?) && Match(head, a.car).Some? then
                Some([Binding(rest, a.cdr)] + Match(head, a.car).value)
              else None
  {
    var r := Pair(Sym(rest), Pair(Sym("..."), Nil));
    var p := Pair(head, r);
    assert HasEllipsisRest(r) && !HasEllipsisRest(p) && !HasDottedRest(p) && !QuotedHead(p);
    if a.Pair? {
      assert Match(r, a.cdr) == if a.cdr.Pair? || a.cdr.Nil? then Some([Binding(rest, a.cdr)]) else None;
      if Match(head, a.car).Some? && Match(r, a.cdr).Some? {
        var h := Match(head, a.car).value;
        assert Merge(h, [Binding(rest, a.cdr)]) == Merge([Binding(rest, a.cdr)] + h, []);
      }
    }
  }

  /** `(head . $rest)` takes every pair whose first element `head` takes. */
  lemma DottedMatches(head: Cell, rest: string, a: Cell)
    requires rest != "" && rest[0] == '$'
    ensures Match(Pair(head, Sym(rest)), a) ==
              if a.Pair? && Match(head, a.car).Some? then Some([Binding(rest, a.cdr)] + Match(head, a.car).value)
              else None
  {
    assert HasDottedRest(Pair(head, Sym(rest)));
  }

  /** `(head $rest ...)` and `($rest ...)` splice the list in, `(. $rest)` is the list. */
  lemma RestExpands(head: Cell, rest: string, l: Cell, b: Bindings)
    requires rest != "" && rest[0] == '$' && Lookup(b, rest) == Some(l)
    ensures var r := Pair(Sym(rest), Pair(Sym("..."), Nil));
            && Expand(r, b) == l
            && (head != Sym(".") ==> Expand(Pair(head, r), b) == Pair(Expand(head, b), l))
            && Expand(Pair(Sym("."), Pair(Sym(rest), Nil)), b) == l
  {
    var r := Pair(Sym(rest), Pair(Sym("..."), Nil));
    assert HasEllipsisRest(r) && !HasEllipsisRest(Pair(head, r));
    var d := Pair(Sym(rest), Nil);
    assert IsPatternVar(Car(d)) && !HasEllipsisRest(Pair(Sym("."), d));
  }

  /** The clauses of the variadic sum: `()`, `($x)` and `($x $rest ...)`. */
  function SumClauses(): (r: seq<Clause>) {
    var x, rest := Sym("$x"), Pair(Sym("$rest"), Pair(Sym("..."), Nil));
    [Clause(Nil, Num(0.0)),
     Clause(Pair(x, Nil), x),
     Clause(Pair(x, rest), Pair(Sym("+"), Pair(x, Pair(Pair(Sym("sum"), rest), Nil))))]
  }

  lemma SumMatches(args: Cell)
    ensures var c := SumClauses();
            && (Match(c[0].pattern, args) == if args.Nil? then Some([]) else None)
            && (Match(c[1].pattern, args) ==
                 if args.Pair? && args.cdr.Nil? then Some([Binding("$x", args.car)]) else None)
            && (Match(c[2].pattern, args) ==
                 if args.Pair? && (args.cdr.Pair? || args.cdr.Nil?) then
                   Some([Binding("$rest", args.cdr), Binding("$x", args.car)])
                 else None)
  {
    var one := Pair(Sym("$x"), Nil);
    assert !HasEllipsisRest(one) && !HasDottedRest(one) && !QuotedHead(one);
    if args.Pair? {
      AtomsMatch("$x", Sym("$x"), args.car);
      AtomsMatch("", Nil, args.cdr);
      assert Merge([Binding("$x", args.car)], []) == [Binding("$x", args.car)];
    }
    RestMatches(Sym("$x"), "$rest", args);
    assert SumClauses()[2].pattern == Pair(Sym("$x"), Pair(Sym("$rest"), Pair(Sym("..."), Nil)));
    if args.Pair? {
      assert [Binding("$rest", args.cdr)] + [Binding("$x", args.car)]
             == [Binding("$rest", args.cdr), Binding("$x", args.car)];
    }
  }

  lemma OneVariable(a: Cell)
    ensures Expand(Sym("$x"), [Binding("$x", a)]) == a
  {
  }

  lemma ZeroStays()
    ensures Expand(Num(0.0), []) == Num(0.0)
  {
  }

  lemma SumTemplate(a: Cell, l: Cell)
    ensures Expand(SumClauses()[2].templ, [Binding("$rest", l), Binding("$x", a)])
            == Pair(Sym("+"), Pair(a, Pair(Pair(Sym("sum"), l), Nil)))
  {
    var b := [Binding("$rest", l), Binding("$x", a)];
    assert b[1..][0] == Binding("$x", a);
    assert Lookup(b, "$x") == Some(a) && Lookup(b, "$rest") == Some(l);
    RestExpands(Sym("sum"), "$rest", l, b);
    var call := Pair(Pair(Sym("sum"), Pair(Sym("$rest"), Pair(Sym("..."), Nil))), Nil);
    ExpandPair(call, b);
    ExpandPair(Pair(Sym("$x"), call), b);
    ExpandPair(SumClauses()[2].templ, b);
  }

  /** Every argument list finds its clause: none gives 0, one gives itself, more give
  `(+ a (sum . l))`. */
  method SumExpands(args: Cell) returns (r: Option<Cell>)
    ensures args == Nil ==> r == Some(Num(0.0))
    ensures forall a :: args == Pair(a, Nil) ==> r == Some(a)
    ensures forall a, l :: args == Pair(a, l) && l.Pair? ==>
              r == Some(Pair(Sym("+"), Pair(a, Pair(Pair(Sym("sum"), l), Nil))))
    ensures r.None? <==> !args.Nil? && !(args.Pair? && (args.cdr.Pair? || args.cdr.Nil?))
  {
    hide Match, Expand;
    SumMatches(args);
    r := ApplyPattern(SumClauses(), args);
    if args.Pair? {
      SumTemplate(args.car, args.cdr);
      OneVariable(args.car);
    }
    ZeroStays();
  }
}
