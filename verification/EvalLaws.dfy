/** What the two evaluators of the De Bruijn fragment owe to programs
(bootstrap/eval.c:1480-1535, 1708-1730, 2500-2518, 3515-3595). */
module EvalLaws {
  // The preservation theorem compares the evaluators with each other. The laws here say what
  // programs written with the source's own symbols evaluate to, in each of them.

  import opened Cells
  import opened Options
  import opened DeBruijn

  function Nth(l: Cell, i: nat): (c: Cell)
    decreases i
  {
    if i == 0 then Car(l) else Nth(Cdr(l), i - 1)
  }

  // ----- argument lists -----

  /** A list evaluates exactly to the values of its elements, in their order. */
  lemma {:induction false} FlatInOrder(w: FWorld, fuel: nat, env: seq<FVal>, l: Cell, vs: seq<FVal>)
    ensures EvalFlatList(w, fuel, env, l) == Some(vs)
            <==> |vs| == Length(l) && forall i :: 0 <= i < |vs| ==> EvalFlat(w, fuel, env, Nth(l, i)) == Some(vs[i])
    decreases l
  {
    hide EvalFlat;
    if l.Pair? && vs != [] {
      FlatInOrder(w, fuel, env, l.cdr, vs[1..]);
      assert vs == [vs[0]] + vs[1..];
      assert forall i :: 0 < i < |vs| ==> Nth(l, i) == Nth(l.cdr, i - 1);
      assert Nth(l, 0) == l.car;
      assert forall i :: 0 <= i < |vs| - 1 ==> vs[1..][i] == vs[i + 1] && Nth(l.cdr, i) == Nth(l, i + 1);
    }
  }

  lemma {:induction false} NamedInOrder(w: NWorld, fuel: nat, env: NEnv, l: Cell, vs: seq<NVal>)
    ensures EvalNamedList(w, fuel, env, l) == Some(vs)
            <==> |vs| == Length(l) && forall i :: 0 <= i < |vs| ==> EvalNamed(w, fuel, env, Nth(l, i)) == Some(vs[i])
    decreases l
  {
    hide EvalNamed;
    if l.Pair? && vs != [] {
      NamedInOrder(w, fuel, env, l.cdr, vs[1..]);
      assert vs == [vs[0]] + vs[1..];
      assert forall i :: 0 < i < |vs| ==> Nth(l, i) == Nth(l.cdr, i - 1);
      assert Nth(l, 0) == l.car;
      assert forall i :: 0 <= i < |vs| - 1 ==> vs[1..][i] == vs[i + 1] && Nth(l.cdr, i) == Nth(l, i + 1);
    }
  }

  // ----- calls -----

  function Lambda(params: Cell, body: Cell): (c: Cell) {
    Pair(Sym("lambda"), Pair(params, Pair(body, Nil)))
  }

  /** `x` is parameter `i`, and not an earlier one. */
  predicate IsParam(params: Cell, i: nat, x: string) {
    i < Length(params) && Nth(params, i) == Sym(x) && forall j :: 0 <= j < i ==> Nth(params, j) != Sym(x)
  }

  lemma {:induction false} ParamIndex(params: Cell, i: nat, x: string)
    requires IsParam(params, i, x) && x != ""
    ensures |ParamNames(params)| == Length(params) && IndexOf(ParamNames(params), x) == i
    decreases params
  {
    var names := ParamNames(params);
    assert names[0] == if params.car.Sym? then params.car.name else "";
    assert names[1..] == ParamNames(params.cdr);
    if i == 0 {
      RestLength(params);
    } else {
      assert Nth(params, 0) != Sym(x);
      assert forall j :: 0 <= j < i - 1 ==> Nth(params.cdr, j) == Nth(params, j + 1);
      ParamIndex(params.cdr, i - 1, x);
    }
  }

  lemma {:induction false} RestLength(params: Cell)
    ensures |ParamNames(params)| == Length(params)
  {
    if params.Pair? {
      RestLength(params.cdr);
    }
  }

  /** `((lambda (x0 .. xn) xi) a0 .. an)` is the value of `ai`, by name. */
  lemma NamedProjection(w: NWorld, fuel: nat, env: NEnv, params: Cell, args: Cell, i: nat, x: string)
    requires fuel >= 3 && IsParam(params, i, x) && x != "" && Length(args) == Length(params)
    requires forall j :: 0 <= j < Length(args) ==> EvalNamed(w, fuel - 1, env, Nth(args, j)).Some?
    ensures EvalNamed(w, fuel, env, Pair(Lambda(params, Sym(x)), args)) == EvalNamed(w, fuel - 1, env, Nth(args, i))
  {
    hide EvalNamed, EvalNamedList, ParamNames, Length;
    var vs := seq(Length(args), j requires 0 <= j < Length(args) => EvalNamed(w, fuel - 1, env, Nth(args, j)).value);
    NamedInOrder(w, fuel - 1, env, args, vs);
    ParamIndex(params, i, x);
    NamedCall(w, fuel, env, params, Sym(x), args, vs);
    NamedVariable(w, fuel - 2, Bind(ParamNames(params), vs, env), x);
  }

  lemma NamedVariable(w: NWorld, fuel: nat, env: NEnv, x: string)
    requires fuel >= 1 && Find(env, x).Some?
    ensures EvalNamed(w, fuel, env, Sym(x)) == Find(env, x)
  {
  }

  lemma NamedCall(w: NWorld, fuel: nat, env: NEnv, params: Cell, body: Cell, args: Cell, vs: seq<NVal>)
    requires fuel >= 2 && EvalNamedList(w, fuel - 1, env, args) == Some(vs) && |vs| == |ParamNames(params)|
    ensures EvalNamed(w, fuel, env, Pair(Lambda(params, body), args))
            == EvalNamed(w, fuel - 2, Bind(ParamNames(params), vs, env), body)
  {
    assert EvalNamed(w, fuel - 1, env, Lambda(params, body)) == Some(NClo(ParamNames(params), body, env));
  }

  /** The same at the top level of the flat evaluator. */
  lemma FlatProjection(w: FWorld, fuel: nat, params: Cell, args: Cell, i: nat, x: string)
    requires fuel >= 3 && IsParam(params, i, x) && x != "" && Length(args) == Length(params)
    requires forall j :: 0 <= j < Length(args) ==> EvalFlat(w, fuel - 1, [], Nth(args, j)).Some?
    ensures EvalFlat(w, fuel, [], Pair(Lambda(params, Sym(x)), args)) == EvalFlat(w, fuel - 1, [], Nth(args, i))
  {
    hide EvalFlat, EvalFlatList, ParamNames, Length;
    var vs := seq(Length(args), j requires 0 <= j < Length(args) => EvalFlat(w, fuel - 1, [], Nth(args, j)).value);
    FlatInOrder(w, fuel - 1, [], args, vs);
    ParamIndex(params, i, x);
    FlatCall(w, fuel, params, Sym(x), args, vs);
    var names := ParamNames(params);
    assert Names(Frame(names, Top)) == names;
    assert Convert(Sym(x), Frame(names, Top)) == Num(i as real);
    FlatVariable(w, fuel - 2, vs, i);
    assert vs + [] == vs;
  }

  lemma FlatVariable(w: FWorld, fuel: nat, env: seq<FVal>, i: nat)
    requires fuel >= 1 && i < |env|
    ensures EvalFlat(w, fuel, env, Num(i as real)) == Some(env[i])
  {
    assert (i as real).Floor == i;
  }

  lemma FlatCall(w: FWorld, fuel: nat, params: Cell, body: Cell, args: Cell, vs: seq<FVal>)
    requires fuel >= 2 && EvalFlatList(w, fuel - 1, [], args) == Some(vs) && |vs| == |ParamNames(params)|
    ensures EvalFlat(w, fuel, [], Pair(Lambda(params, body), args))
            == EvalFlat(w, fuel - 2, vs + [], Convert(body, Frame(ParamNames(params), Top)))
  {
    assert EvalFlat(w, fuel - 1, [], Lambda(params, body))
           == Some(FClo([], Convert(body, Frame(ParamNames(params), Top)), |ParamNames(params)|));
  }

  /** A call with the wrong number of arguments is an error that gives both numbers. */
  lemma WrongArity(n: NWorld, f: FWorld, fuel: nat, env: NEnv, params: Cell, body: Cell, args: Cell)
    requires fuel >= 2 && Length(args) != Length(params)
    requires EvalNamedList(n, fuel - 1, env, args).Some? && EvalFlatList(f, fuel - 1, [], args).Some?
    ensures EvalNamed(n, fuel, env, Pair(Lambda(params, body), args))
            == Some(NErr("arity-mismatch", [NData(NumCell(Length(params))), NData(NumCell(Length(args)))]))
    ensures EvalFlat(f, fuel, [], Pair(Lambda(params, body), args))
            == Some(FErr("arity-mismatch", [FData(NumCell(Length(params))), FData(NumCell(Length(args)))]))
  {
    RestLength(params);
    NamedInOrder(n, fuel - 1, env, args, EvalNamedList(n, fuel - 1, env, args).value);
    FlatInOrder(f, fuel - 1, [], args, EvalFlatList(f, fuel - 1, [], args).value);
    assert EvalNamed(n, fuel - 1, env, Lambda(params, body)) == Some(NClo(ParamNames(params), body, env));
    assert EvalFlat(f, fuel - 1, [], Lambda(params, body))
           == Some(FClo([], Convert(body, Frame(ParamNames(params), Top)), |ParamNames(params)|));
  }

  lemma TwoElements(a: Cell, b: Cell)
    ensures var l := Pair(a, Pair(b, Nil)); Length(l) == 2 && Nth(l, 0) == a && Nth(l, 1) == b
  {
    OneElement(b);
    assert Nth(Pair(a, Pair(b, Nil)), 1) == Nth(Pair(b, Nil), 0);
  }

  lemma OneElement(a: Cell)
    ensures Length(Pair(a, Nil)) == 1 && Nth(Pair(a, Nil), 0) == a
  {
    assert Length(Nil) == 0;
  }

  /** A primitive gets the values of its arguments in the order they are written. */
  lemma PrimitiveCall(n: NWorld, f: FWorld, fuel: nat, x: string, p: string, a: Cell, b: Cell)
    requires fuel >= 2 && x !in SPECIAL && n.global(x) == NPrim(p) && f.global(x) == FPrim(p)
    ensures var call := Pair(Sym(x), Pair(a, Pair(b, Nil)));
            && (EvalNamed(n, fuel - 1, Empty, a).Some? && EvalNamed(n, fuel - 1, Empty, b).Some? ==>
                  EvalNamed(n, fuel, Empty, call) == Some(n.prim(p,
                    [EvalNamed(n, fuel - 1, Empty, a).value, EvalNamed(n, fuel - 1, Empty, b).value])))
            && (EvalFlat(f, fuel - 1, [], a).Some? && EvalFlat(f, fuel - 1, [], b).Some? ==>
                  EvalFlat(f, fuel, [], call) == Some(f.prim(p,
                    [EvalFlat(f, fuel - 1, [], a).value, EvalFlat(f, fuel - 1, [], b).value])))
  {
    var l := Pair(a, Pair(b, Nil));
    TwoElements(a, b);
    assert EvalNamed(n, fuel - 1, Empty, Sym(x)) == Some(NPrim(p));
    assert EvalFlat(f, fuel - 1, [], Sym(x)) == Some(FPrim(p));
    if EvalNamed(n, fuel - 1, Empty, a).Some? && EvalNamed(n, fuel - 1, Empty, b).Some? {
      NamedInOrder(n, fuel - 1, Empty, l,
                   [EvalNamed(n, fuel - 1, Empty, a).value, EvalNamed(n, fuel - 1, Empty, b).value]);
    }
    if EvalFlat(f, fuel - 1, [], a).Some? && EvalFlat(f, fuel - 1, [], b).Some? {
      FlatInOrder(f, fuel - 1, [], l,
                  [EvalFlat(f, fuel - 1, [], a).value, EvalFlat(f, fuel - 1, [], b).value]);
    }
  }

  /** `(((lambda (x) (lambda (y) x)) a) b)` */
  function Curried(x: string, y: string, a: Cell, b: Cell): (c: Cell) {
    Pair(Pair(Lambda(Pair(Sym(x), Nil), Lambda(Pair(Sym(y), Nil), Sym(x))), Pair(a, Nil)), Pair(b, Nil))
  }

  /** A function remembers the values around it: `(((lambda (x) (lambda (y) x)) a) b)` is the
  value of `a`, by name and at the top level of the flat evaluator. */
  lemma Remembers(n: NWorld, f: FWorld, fuel: nat, x: string, y: string, a: Cell, b: Cell)
    requires fuel >= 5 && x != y
    ensures var call := Curried(x, y, a, b);
            && (EvalNamed(n, fuel - 2, Empty, a).Some? && EvalNamed(n, fuel - 1, Empty, b).Some? ==>
                  EvalNamed(n, fuel, Empty, call) == EvalNamed(n, fuel - 2, Empty, a))
            && (EvalFlat(f, fuel - 2, [], a).Some? && EvalFlat(f, fuel - 1, [], b).Some? ==>
                  EvalFlat(f, fuel, [], call) == EvalFlat(f, fuel - 2, [], a))
  {
    if EvalNamed(n, fuel - 2, Empty, a).Some? && EvalNamed(n, fuel - 1, Empty, b).Some? {
      NamedRemembers(n, fuel, x, y, a, b);
    }
    if EvalFlat(f, fuel - 2, [], a).Some? && EvalFlat(f, fuel - 1, [], b).Some? {
      FlatRemembers(f, fuel, x, y, a, b);
    }
  }

  lemma OneParam(x: string)
    ensures ParamNames(Pair(Sym(x), Nil)) == [x] && Length(Pair(Sym(x), Nil)) == 1
  {
    assert ParamNames(Nil) == [];
  }

  lemma NamedRemembers(n: NWorld, fuel: nat, x: string, y: string, a: Cell, b: Cell)
    requires fuel >= 5 && x != y && EvalNamed(n, fuel - 2, Empty, a).Some? && EvalNamed(n, fuel - 1, Empty, b).Some?
    ensures EvalNamed(n, fuel, Empty, Curried(x, y, a, b))
            == EvalNamed(n, fuel - 2, Empty, a)
  {
    OneParam(x);
    OneParam(y);
    OneElement(a);
    OneElement(b);
    var va, vb := EvalNamed(n, fuel - 2, Empty, a).value, EvalNamed(n, fuel - 1, Empty, b).value;
    var inner := Lambda(Pair(Sym(y), Nil), Sym(x));
    NamedInOrder(n, fuel - 2, Empty, Pair(a, Nil), [va]);
    NamedCall(n, fuel - 1, Empty, Pair(Sym(x), Nil), inner, Pair(a, Nil), [va]);
    var env := Bind([x], [va], Empty);
    assert EvalNamed(n, fuel - 3, env, inner) == Some(NClo([y], Sym(x), env));
    NamedInOrder(n, fuel - 1, Empty, Pair(b, Nil), [vb]);
    assert Find(Bind([y], [vb], env), x) == Some(va);
    NamedVariable(n, fuel - 2, Bind([y], [vb], env), x);
  }

  lemma FlatRemembers(f: FWorld, fuel: nat, x: string, y: string, a: Cell, b: Cell)
    requires fuel >= 5 && x != y && EvalFlat(f, fuel - 2, [], a).Some? && EvalFlat(f, fuel - 1, [], b).Some?
    ensures EvalFlat(f, fuel, [], Curried(x, y, a, b))
            == EvalFlat(f, fuel - 2, [], a)
  {
    OneParam(x);
    OneParam(y);
    OneElement(a);
    OneElement(b);
    var va, vb := EvalFlat(f, fuel - 2, [], a).value, EvalFlat(f, fuel - 1, [], b).value;
    hide EvalFlat, EvalFlatList;
    var inner := Lambda(Pair(Sym(y), Nil), Sym(x));
    FlatInOrder(f, fuel - 2, [], Pair(a, Nil), [va]);
    FlatCall(f, fuel - 1, Pair(Sym(x), Nil), inner, Pair(a, Nil), [va]);
    assert [va] + [] == [va] && [vb] + [va] == [vb, va];
    var converted := ConvertedInner(x, y);
    FlatClosure(f, fuel - 3, [va], y, Num(1.0));
    FlatInOrder(f, fuel - 1, [], Pair(b, Nil), [vb]);
    FlatApplied(f, fuel, Pair(Lambda(Pair(Sym(x), Nil), inner), Pair(a, Nil)), Pair(b, Nil), [va], Num(1.0), [vb]);
    FlatVariable(f, fuel - 2, [vb, va], 1);
  }

  lemma FlatClosure(f: FWorld, fuel: nat, env: seq<FVal>, y: string, body: Cell)
    requires fuel >= 1
    ensures EvalFlat(f, fuel, env, Pair(Sym(":lambda-converted"), Pair(Pair(Sym(y), Nil), Pair(body, Nil))))
            == Some(FClo(env, body, 1))
  {
    OneParam(y);
  }

  lemma FlatApplied(f: FWorld, fuel: nat, head: Cell, args: Cell, env: seq<FVal>, body: Cell, vs: seq<FVal>)
    requires fuel >= 2 && !head.Sym?
    requires EvalFlat(f, fuel - 1, [], head) == Some(FClo(env, body, |vs|))
    requires EvalFlatList(f, fuel - 1, [], args) == Some(vs)
    ensures EvalFlat(f, fuel, [], Pair(head, args)) == EvalFlat(f, fuel - 2, vs + env, body)
  {
  }

  /** A lambda in the scope of `x` whose body is `x`: index 1 of its vector. */
  lemma ConvertedInner(x: string, y: string) returns (c: Cell)
    requires x != y
    ensures c == Pair(Sym(":lambda-converted"), Pair(Pair(Sym(y), Nil), Pair(Num(1.0), Nil)))
    ensures Convert(Lambda(Pair(Sym(y), Nil), Sym(x)), Frame([x], Top)) == c
  {
    OneParam(y);
    var ctx := Frame([x], Top);
    assert Names(ctx) == [x] + Names(Top) == [x];
    assert Names(Frame([y], ctx)) == [y] + Names(ctx) == [y, x];
    c := Pair(Sym(":lambda-converted"), Pair(Pair(Sym(y), Nil), Pair(Num(1.0), Nil)));
  }

  /** A conditional takes its second part for the value `#t` and its third for any other. */
  lemma Conditional(n: NWorld, f: FWorld, fuel: nat, env: NEnv, vec: seq<FVal>, c: Cell, a: Cell, b: Cell)
    requires fuel >= 1 && ReadsAsIf(n, env)
    ensures var e := Pair(Sym("if"), Pair(c, Pair(a, Pair(b, Nil))));
            && (EvalNamed(n, fuel - 1, env, c) == Some(NData(Bool(true))) ==>
                  EvalNamed(n, fuel, env, e) == EvalNamed(n, fuel - 1, env, a))
            && (EvalFlat(f, fuel - 1, vec, c) == Some(FData(Bool(true))) ==>
                  EvalFlat(f, fuel, vec, e) == EvalFlat(f, fuel - 1, vec, a))
            && (forall v :: v != NData(Bool(true)) && EvalNamed(n, fuel - 1, env, c) == Some(v) ==>
                  EvalNamed(n, fuel, env, e) == EvalNamed(n, fuel - 1, env, b))
            && (forall v :: v != FData(Bool(true)) && EvalFlat(f, fuel - 1, vec, c) == Some(v) ==>
                  EvalFlat(f, fuel, vec, e) == EvalFlat(f, fuel - 1, vec, b))
  {
  }

  /** A number converts to its quotation and evaluates to itself, as index-free data. */
  lemma NumbersStay(f: FWorld, fuel: nat, vec: seq<FVal>, ctx: Context, r: real)
    requires fuel >= 1
    ensures Convert(Num(r), ctx) == Pair(Sym("quote"), Pair(Num(r), Nil))
    ensures EvalFlat(f, fuel, vec, Pair(Sym("quote"), Pair(Num(r), Nil))) == Some(FData(Num(r)))
  {
  }

  /** Data is no function: calling it is an error that names it. */
  lemma NotAFunction(n: NWorld, f: FWorld, fuel: nat, s: string, args: Cell)
    requires fuel >= 2
    requires EvalNamedList(n, fuel - 1, Empty, args).Some? && EvalFlatList(f, fuel - 1, [], args).Some?
    ensures EvalNamed(n, fuel, Empty, Pair(Str(s), args)) == Some(NErr("not-a-function", [NData(Str(s))]))
    ensures EvalFlat(f, fuel, [], Pair(Str(s), args)) == Some(FErr("not-a-function", [FData(Str(s))]))
  {
    assert EvalNamed(n, fuel - 1, Empty, Str(s)) == Some(NData(Str(s)));
    assert EvalFlat(f, fuel - 1, [], Str(s)) == Some(FData(Str(s)));
  }

  predicate ProperList(l: Cell) {
    l.Nil? || (l.Pair? && ProperList(l.cdr))
  }

  predicate PlainAt(l: Cell, i: nat) {
    Nth(l, i).Sym? && Nth(l, i).name != ":" && Nth(l, i).name != "generic-param"
  }

  /** The parameter lists of the fragment: all lists of symbols but the two markers. */
  lemma {:induction false} PlainParamsAre(l: Cell)
    ensures PlainParams(l) <==> ProperList(l) && forall i :: 0 <= i < Length(l) ==> PlainAt(l, i)
    decreases l
  {
    if l.Pair? {
      PlainParamsAre(l.cdr);
      assert Nth(l, 0) == l.car;
      assert forall i :: 0 <= i < Length(l.cdr) ==> PlainAt(l.cdr, i) == PlainAt(l, i + 1);
      assert forall i :: 0 < i < Length(l) ==> PlainAt(l, i) == PlainAt(l.cdr, i - 1);
      assert PlainAt(l, 0) <==> l.car.Sym? && l.car.name != ":" && l.car.name != "generic-param";
    }
  }
}
