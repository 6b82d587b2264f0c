/** De Bruijn conversion and flat vector environments. */
module DeBruijn {
  // `debruijn_convert` (bootstrap/debruijn.c) replaces variables by indices; `eval_internal`
  // (bootstrap/eval.c) runs the converted bodies in vectors built by `extend_env`. The
  // reference semantics is an ordinary lexically scoped evaluator with named frames. Both
  // evaluators take fuel; `None` means it ran out.

  import opened Cells
  import opened Options

  // ----- conversion -----

  /** The chain of parameter lists around an expression, innermost first. */
  datatype Context = Top | Frame(names: seq<string>, parent: Context)

  function Names(ctx: Context): (r: seq<string>) {
    match ctx
    case Top => []
    case Frame(names, parent) => names + Names(parent)
  }

  /** The first position of `x`, or -1. */
  function IndexOf(names: seq<string>, x: string): (i: int)
    ensures -1 <= i < |names|
    ensures i >= 0 ==> names[i] == x && x !in names[..i]
    ensures i < 0 <==> x !in names
  {
    if names == [] then -1
    else if names[0] == x then 0
    else
      var j := IndexOf(names[1..], x);
      assert j >= 0 ==> names[..j + 1] == [names[0]] + names[1..][..j];
      if j < 0 then -1 else j + 1
  }

  lemma IndexOfUnique(names: seq<string>, x: string, i: nat)
    requires i < |names| && names[i] == x && x !in names[..i]
    ensures IndexOf(names, x) == i
  {
  }

  /** The first occurrence, in the frame after those already scanned. */
  lemma FoundInFrame(seen: seq<string>, frame: seq<string>, rest: seq<string>, x: string, i: nat)
    requires x !in seen && i < |frame| && frame[i] == x && x !in frame[..i]
    ensures IndexOf(seen + (frame + rest), x) == |seen| + i
  {
    var all := seen + (frame + rest);
    assert all[..|seen| + i] == seen + frame[..i];
    IndexOfUnique(all, x, |seen| + i);
  }

  /** `debruijn_lookup`: scan the frames outwards, adding up their lengths. */
  method DebruijnLookup(x: string, ctx: Context) returns (index: int)
    ensures index == IndexOf(Names(ctx), x)
  {
    var depth := 0;
    var current := ctx;
    ghost var seen: seq<string> := [];
    while current.Frame?
      invariant Names(ctx) == seen + Names(current) && depth == |seen| && x !in seen
      decreases current
    {
      var i := 0;
      while i < |current.names|
        invariant 0 <= i <= |current.names| && x !in current.names[..i]
      {
        if x == current.names[i] {
          FoundInFrame(seen, current.names, Names(current.parent), x, i);
          return depth + i;
        }
        i := i + 1;
      }
      assert seen + (current.names + Names(current.parent)) == (seen + current.names) + Names(current.parent);
      seen := seen + current.names;
      depth := depth + |current.names|;
      current := current.parent;
    }
    index := -1;
  }

  /** The parameter names of a plain parameter list. */
  function ParamNames(params: Cell): (r: seq<string>) {
    if params.Pair? then
      (if params.car.Sym? then [params.car.name] else [""]) + ParamNames(params.cdr)
    else []
  }

  function Quoted(c: Cell): (r: Cell) { Pair(Sym("quote"), Pair(c, Nil)) }

  /** `debruijn_convert`.  A lambda without a body, on which the runtime aborts, is left
  alone. */
  function Convert(e: Cell, ctx: Context): (r: Cell)
    decreases e, 0
  {
    match e
    case Sym(x) =>
      var i := IndexOf(Names(ctx), x);
      if i >= 0 then Num(i as real) else e
    case Num(_) => Quoted(e)
    case Bool(_) => e
    case Str(_) => e
    case Nil => e
    case Pair(first, rest) =>
      if first == Sym("lambda") then
        if !rest.Pair? || !rest.cdr.Pair? then e else
        var params, body := rest.car, rest.cdr.car;
        Pair(Sym(":lambda-converted"),
             Pair(params, Pair(Convert(body, Frame(ParamNames(params), ctx)), Nil)))
      else Pair(Convert(first, ctx), ConvertList(rest, ctx))
  }

  /** `debruijn_convert_list`. */
  function ConvertList(l: Cell, ctx: Context): (r: Cell)
    decreases l, 1
  {
    match l
    case Nil => Nil
    case Pair(first, rest) => Pair(Convert(first, ctx), ConvertList(rest, ctx))
    case _ => Convert(l, ctx)
  }

  // ----- the flat evaluator -----

  /** Values at run time: data cells, errors, primitives and flat closures. */
  datatype FVal =
    | FData(c: Cell)
    | FErr(msg: string, args: seq<FVal>)
    | FPrim(name: string)
    | FClo(env: seq<FVal>, body: Cell, arity: nat)

  /** Global lookup (including keywords and undefined names) and the primitives. */
  datatype FWorld = FWorld(global: string -> FVal, prim: (string, seq<FVal>) -> FVal)

  function NumCell(n: nat): (c: Cell) { Num(n as real) }

  /** `extend_env`: arguments first, then the closure's vector. */
  method ExtendEnv(env: seq<FVal>, args: seq<FVal>) returns (vec: seq<FVal>)
    ensures vec == args + env
  {
    vec := [];
    var i := 0;
    while i < |args|
      invariant 0 <= i <= |args| && vec == args[..i]
    {
      vec := vec + [args[i]];
      i := i + 1;
    }
    i := 0;
    while i < |env|
      invariant 0 <= i <= |env| && vec == args + env[..i]
    {
      vec := vec + [env[i]];
      i := i + 1;
    }
  }

  /** A number in an indexed environment: a valid index is a variable, anything else
  stands for itself. */
  function EvalNumber(env: seq<FVal>, n: real): (v: FVal) {
    if n >= 0.0 && n == n.Floor as real && n.Floor < |env| then env[n.Floor] else FData(Num(n))
  }

  /** `eval_internal` on converted code. */
  function EvalFlat(w: FWorld, fuel: nat, env: seq<FVal>, e: Cell): (r: Option<FVal>)
    decreases fuel, e
  {
    if fuel == 0 then None
    else
      match e
      case Num(n) => Some(EvalNumber(env, n))
      case Bool(_) => Some(FData(e))
      case Str(_) => Some(FData(e))
      case Nil => Some(FData(e))
      case Sym(x) => Some(w.global(x))
      case Pair(first, rest) =>
        if first == Sym("quote") then Some(FData(Car(rest)))
        else if first == Sym(":lambda-converted") then
          Some(FClo(env, Car(Cdr(rest)), Length(Car(rest))))
        else if first == Sym("lambda") then
          var names := ParamNames(Car(rest));
          Some(FClo(env, Convert(Car(Cdr(rest)), Frame(names, Top)), |names|))
        else if first == Sym("if") then
          var c := EvalFlat(w, fuel - 1, env, Car(rest));
          if c.None? then None
          else if c.value == FData(Bool(true)) then EvalFlat(w, fuel - 1, env, Car(Cdr(rest)))
          else EvalFlat(w, fuel - 1, env, Car(Cdr(Cdr(rest))))
        else
          var f := EvalFlat(w, fuel - 1, env, first);
          var args := EvalFlatList(w, fuel - 1, env, rest);
          if f.None? || args.None? then None
          else ApplyFlat(w, fuel - 1, f.value, args.value)
  }

  function EvalFlatList(w: FWorld, fuel: nat, env: seq<FVal>, l: Cell): (r: Option<seq<FVal>>)
    decreases fuel, l
  {
    if !l.Pair? then Some([])
    else
      var v := EvalFlat(w, fuel, env, l.car);
      var vs := EvalFlatList(w, fuel, env, l.cdr);
      if v.None? || vs.None? then None else Some([v.value] + vs.value)
  }

  function ApplyFlat(w: FWorld, fuel: nat, f: FVal, args: seq<FVal>): (r: Option<FVal>)
    decreases fuel, Nil, 1
  {
    match f
    case FPrim(name) => Some(w.prim(name, args))
    case FClo(env, body, arity) =>
      if |args| != arity then
        Some(FErr("arity-mismatch", [FData(NumCell(arity)), FData(NumCell(|args|))]))
      else if fuel == 0 then None
      else EvalFlat(w, fuel - 1, args + env, body)
    case _ => Some(FErr("not-a-function", [f]))
  }

  // ----- the named evaluator -----

  datatype NVal =
    | NData(c: Cell)
    | NErr(msg: string, args: seq<NVal>)
    | NPrim(name: string)
    | NClo(params: seq<string>, body: Cell, env: NEnv)

  datatype NEnv = Empty | Bind(names: seq<string>, vals: seq<NVal>, outer: NEnv)

  /** `formsWin` chooses the reading of a conditional where a parameter is named `if`: the
  special form wins, as in the source language, or the parameter does. */
  datatype NWorld = NWorld(global: string -> NVal, prim: (string, seq<NVal>) -> NVal, formsWin: bool)

  predicate ReadsAsIf(w: NWorld, env: NEnv) {
    w.formsWin || Find(env, "if").None?
  }

  /** The innermost binding of a name; within a frame the first parameter wins. */
  function Find(env: NEnv, x: string): (r: Option<NVal>) {
    match env
    case Empty => None
    case Bind(names, vals, outer) =>
      var i := IndexOf(names, x);
      if 0 <= i < |vals| then Some(vals[i]) else Find(outer, x)
  }

  function EvalNamed(w: NWorld, fuel: nat, env: NEnv, e: Cell): (r: Option<NVal>)
    decreases fuel, e
  {
    if fuel == 0 then None
    else
      match e
      case Num(_) => Some(NData(e))
      case Bool(_) => Some(NData(e))
      case Str(_) => Some(NData(e))
      case Nil => Some(NData(e))
      case Sym(x) => (match Find(env, x) case Some(v) => Some(v) case None => Some(w.global(x)))
      case Pair(first, rest) =>
        if first == Sym("lambda") then
          Some(NClo(ParamNames(Car(rest)), Car(Cdr(rest)), env))
        else if first == Sym("if") && ReadsAsIf(w, env) then
          var c := EvalNamed(w, fuel - 1, env, Car(rest));
          if c.None? then None
          else if c.value == NData(Bool(true)) then EvalNamed(w, fuel - 1, env, Car(Cdr(rest)))
          else EvalNamed(w, fuel - 1, env, Car(Cdr(Cdr(rest))))
        else
          var f := EvalNamed(w, fuel - 1, env, first);
          var args := EvalNamedList(w, fuel - 1, env, rest);
          if f.None? || args.None? then None
          else ApplyNamed(w, fuel - 1, f.value, args.value)
  }

  function EvalNamedList(w: NWorld, fuel: nat, env: NEnv, l: Cell): (r: Option<seq<NVal>>)
    decreases fuel, l
  {
    if !l.Pair? then Some([])
    else
      var v := EvalNamed(w, fuel, env, l.car);
      var vs := EvalNamedList(w, fuel, env, l.cdr);
      if v.None? || vs.None? then None else Some([v.value] + vs.value)
  }

  function ApplyNamed(w: NWorld, fuel: nat, f: NVal, args: seq<NVal>): (r: Option<NVal>)
    decreases fuel, Nil, 1
  {
    match f
    case NPrim(name) => Some(w.prim(name, args))
    case NClo(params, body, env) =>
      if |args| != |params| then
        Some(NErr("arity-mismatch", [NData(NumCell(|params|)), NData(NumCell(|args|))]))
      else if fuel == 0 then None
      else EvalNamed(w, fuel - 1, Bind(params, args, env), body)
    case _ => Some(NErr("not-a-function", [f]))
  }

  // ----- the fragment -----

  const SPECIAL: set<string> := {
    "quote", "quasiquote-tilde", "macro-rules", "macro", "define", "type-decl", "type-check",
    "type-validate", "type-infer", "type-assert", "type-infer-all", ":lambda-converted", "lambda",
    "if", "begin", "match", "effect-def", "effect?", "effect-get", "handle", "handle-resume",
    "perform", "handle-linear", "consume", ":__indexed__", "~", "quasiquote", "unquote", "and",
    "or", "try", "refine-def", "generic-param", "bind", ":"}

  /** A proper list of symbols without the two markers that introduce annotations. */
  predicate PlainParams(params: Cell) {
    match params
    case Nil => true
    case Pair(p, rest) => p.Sym? && p.name != ":" && p.name != "generic-param" && PlainParams(rest)
    case _ => false
  }

  /** Variables, literals, `if`, single-body lambda with plain parameters, application; the
  other special forms are no part of it.  With `strict`, no conditional stands in the scope
  of a parameter named `if`. */
  predicate Fragment(e: Cell, scope: seq<string>, strict: bool)
    decreases e, 0
  {
    match e
    case Pair(first, rest) =>
      if first == Sym("lambda") then
        && rest.Pair? && rest.cdr.Pair? && rest.cdr.cdr.Nil?
        && PlainParams(rest.car) && Fragment(rest.cdr.car, ParamNames(rest.car) + scope, strict)
      else if first == Sym("if") then
        FragmentList(rest, scope, strict) && Length(rest) == 3 && (strict ==> "if" !in scope)
      else
        && (first.Sym? ==> first.name !in SPECIAL)
        && Fragment(first, scope, strict) && FragmentList(rest, scope, strict)
    case _ => true
  }

  predicate FragmentList(l: Cell, scope: seq<string>, strict: bool)
    decreases l, 1
  {
    match l
    case Nil => true
    case Pair(first, rest) => Fragment(first, scope, strict) && FragmentList(rest, scope, strict)
    case _ => false
  }

  // ----- translating values -----

  /** Closures built by the named evaluator from the fragment. */
  predicate ValOk(v: NVal, strict: bool) {
    match v
    case NData(_) => true
    case NPrim(_) => true
    case NErr(_, args) => forall a :: a in args ==> ValOk(a, strict)
    case NClo(params, body, env) =>
      Fragment(body, params + Names(ContextOf(env)), strict) && EnvOk(env, strict)
  }

  predicate EnvOk(env: NEnv, strict: bool) {
    match env
    case Empty => true
    case Bind(names, vals, outer) =>
      && |names| == |vals|
      && (forall a :: a in vals ==> ValOk(a, strict))
      && EnvOk(outer, strict)
  }

  /** The names bound around code that runs in an environment. */
  function Scope(env: NEnv): (r: seq<string>) {
    Names(ContextOf(env))
  }

  /** The compile-time context of an environment. */
  function ContextOf(env: NEnv): (ctx: Context) {
    match env
    case Empty => Top
    case Bind(names, _, outer) => Frame(names, ContextOf(outer))
  }

  /** The flat image of a value: a closure's body is converted in its context and its
  frames become one vector. */
  function Flat(v: NVal): (r: FVal) {
    match v
    case NData(c) => FData(c)
    case NErr(msg, args) => FErr(msg, FlatAll(args))
    case NPrim(name) => FPrim(name)
    case NClo(params, body, env) =>
      FClo(FlatEnv(env), Convert(body, Frame(params, ContextOf(env))), |params|)
  }

  function FlatAll(vs: seq<NVal>): (r: seq<FVal>)
    ensures |r| == |vs|
    ensures forall i :: 0 <= i < |vs| ==> r[i] == Flat(vs[i])
  {
    if vs == [] then [] else [Flat(vs[0])] + FlatAll(vs[1..])
  }

  function FlatEnv(env: NEnv): (r: seq<FVal>) {
    match env
    case Empty => []
    case Bind(_, vals, outer) => FlatAll(vals) + FlatEnv(outer)
  }

  function FlatOpt(v: Option<NVal>): (r: Option<FVal>) {
    match v case None => None case Some(x) => Some(Flat(x))
  }

  /** Globals and primitives of the two worlds correspond. */
  ghost predicate Corresponds(n: NWorld, f: FWorld) {
    && (forall x :: ValOk(n.global(x), n.formsWin) && f.global(x) == Flat(n.global(x)))
    && (forall p, args: seq<NVal> :: (forall a :: a in args ==> ValOk(a, n.formsWin)) ==>
          ValOk(n.prim(p, args), n.formsWin) && f.prim(p, FlatAll(args)) == Flat(n.prim(p, args)))
  }

  // ----- layout: indices and vectors agree -----

  lemma {:induction false} IndexOfConcat(a: seq<string>, b: seq<string>, x: string)
    ensures IndexOf(a + b, x) ==
            if x in a then IndexOf(a, x) else if x in b then |a| + IndexOf(b, x) else -1
  {
    if a == [] {
      assert a + b == b;
    } else {
      assert (a + b)[1..] == a[1..] + b;
      IndexOfConcat(a[1..], b, x);
    }
  }

  /** A bound name's index is in range of the vector and names the same value; a free
  name has no index. */
  lemma {:induction false} LookupAgrees(env: NEnv, x: string, strict: bool)
    requires EnvOk(env, strict)
    ensures var i := IndexOf(Names(ContextOf(env)), x);
            && |FlatEnv(env)| == |Names(ContextOf(env))|
            && (i >= 0 <==> Find(env, x).Some?)
            && (i >= 0 ==> ValOk(Find(env, x).value, strict) && FlatEnv(env)[i] == Flat(Find(env, x).value))
  {
    match env
    case Empty =>
    case Bind(names, vals, outer) =>
      LookupAgrees(outer, x, strict);
      IndexOfConcat(names, Names(ContextOf(outer)), x);
      assert FlatEnv(env) == FlatAll(vals) + FlatEnv(outer);
  }

  /** An index cell evaluates to the vector's element; the literal reading is not taken. */
  lemma IndexIsVariable(env: seq<FVal>, i: nat)
    requires i < |env|
    ensures EvalNumber(env, i as real) == env[i]
  {
    assert (i as real).Floor == i;
  }

  lemma {:induction false} PlainParamCount(params: Cell)
    requires PlainParams(params)
    ensures |ParamNames(params)| == Length(params)
  {
    if params.Pair? {
      PlainParamCount(params.cdr);
    }
  }

  lemma HeadStaysOrdinary(env: NEnv, first: Cell)
    requires first.Sym? ==> first.name !in SPECIAL || first.name in Scope(env)
    ensures var c := Convert(first, ContextOf(env)); c.Sym? ==> c == first && c.name !in SPECIAL
  {
  }

  lemma {:induction false} FragmentListShape(l: Cell, scope: seq<string>, strict: bool)
    requires FragmentList(l, scope, strict) && Length(l) == 3
    ensures l.Pair? && l.cdr.Pair? && l.cdr.cdr.Pair? && l.cdr.cdr.cdr.Nil?
    ensures Fragment(l.car, scope, strict) && Fragment(l.cdr.car, scope, strict)
    ensures Fragment(l.cdr.cdr.car, scope, strict)
  {
    assert FragmentList(l.cdr, scope, strict) && Length(l.cdr) == 2;
    assert FragmentList(l.cdr.cdr, scope, strict) && Length(l.cdr.cdr) == 1;
    assert FragmentList(l.cdr.cdr.cdr, scope, strict) && Length(l.cdr.cdr.cdr) == 0;
  }

  lemma IfShape(env: NEnv, rest: Cell, strict: bool)
    requires FragmentList(rest, Scope(env), strict) && Length(rest) == 3 && "if" !in Scope(env)
    ensures rest.Pair? && rest.cdr.Pair? && rest.cdr.cdr.Pair?
    ensures Fragment(rest.car, Scope(env), strict) && Fragment(rest.cdr.car, Scope(env), strict)
    ensures Fragment(rest.cdr.cdr.car, Scope(env), strict)
    ensures var ctx := ContextOf(env);
            Convert(Pair(Sym("if"), rest), ctx)
            == Pair(Sym("if"), Pair(Convert(rest.car, ctx), Pair(Convert(rest.cdr.car, ctx),
                               Pair(Convert(rest.cdr.cdr.car, ctx), Nil))))
  {
    FragmentListShape(rest, Scope(env), strict);
    var ctx := ContextOf(env);
    assert ConvertList(rest.cdr.cdr, ctx) == Pair(Convert(rest.cdr.cdr.car, ctx), Nil);
    assert ConvertList(rest.cdr, ctx) == Pair(Convert(rest.cdr.car, ctx), ConvertList(rest.cdr.cdr, ctx));
  }

  // ----- meaning preservation -----

  /** Named and flat results correspond, and named values stay within the fragment. */
  predicate Agree(n: Option<NVal>, f: Option<FVal>, strict: bool)
    ensures Agree(n, f, strict) ==>
              n.Some? == f.Some? && (n.Some? ==> f.value == Flat(n.value) && ValOk(n.value, strict))
  {
    f == FlatOpt(n) && (n.Some? ==> ValOk(n.value, strict))
  }

  predicate AgreeAll(n: Option<seq<NVal>>, f: Option<seq<FVal>>, strict: bool)
    ensures AgreeAll(n, f, strict) ==>
              n.Some? == f.Some? && (n.Some? ==> forall a :: a in n.value ==> ValOk(a, strict))
  {
    && n.Some? == f.Some?
    && (n.Some? ==> f.value == FlatAll(n.value) && forall a :: a in n.value ==> ValOk(a, strict))
  }

  /** The converted expression in the flattened environment agrees with the named
  evaluator. */
  ghost predicate Preserved(n: NWorld, f: FWorld, fuel: nat, env: NEnv, e: Cell) {
    Agree(EvalNamed(n, fuel, env, e), EvalFlat(f, fuel, FlatEnv(env), Convert(e, ContextOf(env))), n.formsWin)
  }

  /** For every fuel, expression of the fragment and environment: the converted
  expression in the flattened environment computes the flat image of what the named
  evaluator computes, and runs out of fuel exactly when it does.

  In a world where forms win the fragment keeps conditionals out of the scope of a
  parameter named `if`; in the other world it does not, so there the conversion is exact
  for every expression and says what a captured conditional means. */
  lemma {:induction false} ConversionPreservesMeaning(n: NWorld, f: FWorld, fuel: nat, env: NEnv, e: Cell)
    requires Corresponds(n, f) && Fragment(e, Scope(env), n.formsWin) && EnvOk(env, n.formsWin)
    ensures Preserved(n, f, fuel, env, e)
    decreases fuel, e, 0
  {
    hide Corresponds, Preserved, AgreeAll, EvalNamed, EvalFlat, Convert, ConvertList;
    if fuel == 0 {
      OutOfFuel(n, f, env, e);
    } else {
      match e
      case Sym(x) => VariableCase(n, f, fuel, env, x);
      case Pair(first, rest) =>
        if first == Sym("lambda") {
          LambdaCase(n, f, fuel, env, e);
        } else if first == Sym("if") && "if" !in Scope(env) {
          IfShape(env, rest, n.formsWin);
          ConversionPreservesMeaning(n, f, fuel - 1, env, rest.car);
          ConversionPreservesMeaning(n, f, fuel - 1, env, rest.cdr.car);
          ConversionPreservesMeaning(n, f, fuel - 1, env, rest.cdr.cdr.car);
          IfCase(n, f, fuel, env, rest);
        } else {
          ConversionPreservesMeaning(n, f, fuel - 1, env, first);
          ListPreserved(n, f, fuel - 1, env, rest);
          HeadAndArguments(n, f, fuel - 1, env, first, rest);
          ApplicationCase(n, f, fuel, env, first, rest);
        }
      case _ => LiteralCase(n, f, fuel, env, e);
    }
  }

  /** Applying what the head and the arguments evaluate to. */
  lemma {:induction false} HeadAndArguments(n: NWorld, f: FWorld, fuel: nat, env: NEnv, first: Cell, rest: Cell)
    requires Corresponds(n, f) && Preserved(n, f, fuel, env, first)
    requires AgreeAll(EvalNamedList(n, fuel, env, rest),
                      EvalFlatList(f, fuel, FlatEnv(env), ConvertList(rest, ContextOf(env))), n.formsWin)
    ensures var g, args := EvalNamed(n, fuel, env, first), EvalNamedList(n, fuel, env, rest);
            g.Some? && args.Some? ==>
              Agree(ApplyNamed(n, fuel, g.value, args.value),
                    ApplyFlat(f, fuel, Flat(g.value), FlatAll(args.value)), n.formsWin)
    decreases fuel, Nil, 3
  {
    var g, args := EvalNamed(n, fuel, env, first), EvalNamedList(n, fuel, env, rest);
    if g.Some? && args.Some? {
      ApplyPreserved(n, f, fuel, g.value, args.value);
    }
  }

  lemma OutOfFuel(n: NWorld, f: FWorld, env: NEnv, e: Cell)
    ensures Preserved(n, f, 0, env, e)
  {
  }

  lemma LiteralCase(n: NWorld, f: FWorld, fuel: nat, env: NEnv, e: Cell)
    requires fuel > 0 && !e.Sym? && !e.Pair?
    ensures Preserved(n, f, fuel, env, e)
  {
  }

  /** A name is bound at run time exactly when the converter sees it bound. */
  lemma BoundAlike(env: NEnv, x: string, strict: bool)
    requires EnvOk(env, strict)
    ensures Find(env, x).Some? <==> x in Scope(env)
  {
    LookupAgrees(env, x, strict);
  }

  lemma IfCase(n: NWorld, f: FWorld, fuel: nat, env: NEnv, rest: Cell)
    requires fuel > 0 && EnvOk(env, n.formsWin) && FragmentList(rest, Scope(env), n.formsWin)
    requires Length(rest) == 3 && "if" !in Scope(env)
    requires rest.Pair? && rest.cdr.Pair? && rest.cdr.cdr.Pair?
    requires Preserved(n, f, fuel - 1, env, rest.car) && Preserved(n, f, fuel - 1, env, rest.cdr.car)
    requires Preserved(n, f, fuel - 1, env, rest.cdr.cdr.car)
    ensures Preserved(n, f, fuel, env, Pair(Sym("if"), rest))
  {
    hide EvalNamed, EvalFlat, Convert, ConvertList, FragmentList, EnvOk;
    var ctx := ContextOf(env);
    IfShape(env, rest, n.formsWin);
    NamedIf(n, fuel, env, rest);
    FlatIf(f, fuel, FlatEnv(env), Convert(rest.car, ctx), Convert(rest.cdr.car, ctx), Convert(rest.cdr.cdr.car, ctx));
  }

  /** An application, or a conditional whose `if` is a parameter. */
  ghost predicate Called(n: NWorld, env: NEnv, first: Cell) {
    && first != Sym("lambda")
    && (first.Sym? ==> first.name !in SPECIAL || (first.name == "if" && "if" in Scope(env) && !n.formsWin))
  }

  lemma ApplicationCase(n: NWorld, f: FWorld, fuel: nat, env: NEnv, first: Cell, rest: Cell)
    requires fuel > 0 && Called(n, env, first) && EnvOk(env, n.formsWin)
    requires Preserved(n, f, fuel - 1, env, first)
    requires var (vec, ctx) := (FlatEnv(env), ContextOf(env));
             var g, args := EvalNamed(n, fuel - 1, env, first), EvalNamedList(n, fuel - 1, env, rest);
             && AgreeAll(args, EvalFlatList(f, fuel - 1, vec, ConvertList(rest, ctx)), n.formsWin)
             && (g.Some? && args.Some? ==>
                   Agree(ApplyNamed(n, fuel - 1, g.value, args.value),
                         ApplyFlat(f, fuel - 1, Flat(g.value), FlatAll(args.value)), n.formsWin))
    ensures Preserved(n, f, fuel, env, Pair(first, rest))
  {
    hide EvalNamed, EvalFlat, EvalNamedList, EvalFlatList, Convert, ConvertList, ApplyNamed, ApplyFlat;
    NamedApplication(n, fuel, env, first, rest);
    ApplicationShape(f, fuel, env, first, rest);
  }

  lemma NamedApplication(n: NWorld, fuel: nat, env: NEnv, first: Cell, rest: Cell)
    requires fuel > 0 && Called(n, env, first) && EnvOk(env, n.formsWin)
    ensures var g, args := EvalNamed(n, fuel - 1, env, first), EvalNamedList(n, fuel - 1, env, rest);
            EvalNamed(n, fuel, env, Pair(first, rest))
            == if g.None? || args.None? then None else ApplyNamed(n, fuel - 1, g.value, args.value)
  {
    BoundAlike(env, "if", n.formsWin);
  }

  lemma FlatIf(f: FWorld, fuel: nat, vec: seq<FVal>, a: Cell, b: Cell, c: Cell)
    requires fuel > 0
    ensures var v := EvalFlat(f, fuel - 1, vec, a);
            EvalFlat(f, fuel, vec, Pair(Sym("if"), Pair(a, Pair(b, Pair(c, Nil)))))
            == if v.None? then None
               else EvalFlat(f, fuel - 1, vec, if v.value == FData(Bool(true)) then b else c)
  {
  }

  lemma NamedIf(n: NWorld, fuel: nat, env: NEnv, rest: Cell)
    requires fuel > 0 && EnvOk(env, n.formsWin) && "if" !in Scope(env)
    requires rest.Pair? && rest.cdr.Pair? && rest.cdr.cdr.Pair?
    ensures var v := EvalNamed(n, fuel - 1, env, rest.car);
            EvalNamed(n, fuel, env, Pair(Sym("if"), rest))
            == if v.None? then None
               else EvalNamed(n, fuel - 1, env,
                              if v.value == NData(Bool(true)) then rest.cdr.car else rest.cdr.cdr.car)
  {
    BoundAlike(env, "if", n.formsWin);
  }

  lemma VariableCase(n: NWorld, f: FWorld, fuel: nat, env: NEnv, x: string)
    requires fuel > 0 && Corresponds(n, f) && EnvOk(env, n.formsWin)
    ensures Preserved(n, f, fuel, env, Sym(x))
  {
    LookupAgrees(env, x, n.formsWin);
    var i := IndexOf(Scope(env), x);
    if i >= 0 { IndexIsVariable(FlatEnv(env), i); }
  }

  /** A converted application is still an application. */
  lemma ApplicationShape(f: FWorld, fuel: nat, env: NEnv, first: Cell, rest: Cell)
    requires fuel > 0 && first != Sym("lambda")
    requires first.Sym? ==> first.name !in SPECIAL || first.name in Scope(env)
    ensures var ctx, vec := ContextOf(env), FlatEnv(env);
            var g := EvalFlat(f, fuel - 1, vec, Convert(first, ctx));
            var args := EvalFlatList(f, fuel - 1, vec, ConvertList(rest, ctx));
            EvalFlat(f, fuel, vec, Convert(Pair(first, rest), ctx))
            == if g.None? || args.None? then None else ApplyFlat(f, fuel - 1, g.value, args.value)
  {
    HeadStaysOrdinary(env, first);
  }

  lemma LambdaCase(n: NWorld, f: FWorld, fuel: nat, env: NEnv, e: Cell)
    requires fuel > 0 && e.Pair? && e.car == Sym("lambda")
    requires Fragment(e, Scope(env), n.formsWin) && EnvOk(env, n.formsWin)
    ensures Preserved(n, f, fuel, env, e)
  {
    PlainParamCount(e.cdr.car);
  }

  lemma {:induction false} ListPreserved(n: NWorld, f: FWorld, fuel: nat, env: NEnv, l: Cell)
    requires Corresponds(n, f) && FragmentList(l, Scope(env), n.formsWin) && EnvOk(env, n.formsWin)
    ensures AgreeAll(EvalNamedList(n, fuel, env, l),
                     EvalFlatList(f, fuel, FlatEnv(env), ConvertList(l, ContextOf(env))), n.formsWin)
    decreases fuel, l, 1
  {
    if l.Pair? {
      ConversionPreservesMeaning(n, f, fuel, env, l.car);
      ListPreserved(n, f, fuel, env, l.cdr);
    }
  }

  lemma {:induction false} ApplyPreserved(n: NWorld, f: FWorld, fuel: nat, g: NVal, args: seq<NVal>)
    requires Corresponds(n, f) && ValOk(g, n.formsWin) && forall a :: a in args ==> ValOk(a, n.formsWin)
    ensures Agree(ApplyNamed(n, fuel, g, args), ApplyFlat(f, fuel, Flat(g), FlatAll(args)), n.formsWin)
    decreases fuel, Nil, 2
  {
    match g
    case NClo(params, body, env) =>
      var counts := [NData(NumCell(|params|)), NData(NumCell(|args|))];
      assert FlatAll(counts) == [Flat(counts[0]), Flat(counts[1])];
      if |args| == |params| && fuel > 0 {
        ConversionPreservesMeaning(n, f, fuel - 1, Bind(params, args, env), body);
        assert Preserved(n, f, fuel - 1, Bind(params, args, env), body);
      }
    case _ =>
      assert FlatAll([g]) == [Flat(g)];
  }

  // ----- the capture of `if` -----

  /** A conditional in the scope of a parameter named `if` becomes a call of that parameter
  with the three parts as arguments, whatever they are. */
  lemma CapturedIfIsCall(f: FWorld, fuel: nat, env: NEnv, rest: Cell, strict: bool)
    requires fuel > 1 && EnvOk(env, strict) && "if" in Scope(env)
    ensures Find(env, "if").Some?
    ensures var args := EvalFlatList(f, fuel - 1, FlatEnv(env), ConvertList(rest, ContextOf(env)));
            EvalFlat(f, fuel, FlatEnv(env), Convert(Pair(Sym("if"), rest), ContextOf(env)))
            == if args.None? then None else ApplyFlat(f, fuel - 1, Flat(Find(env, "if").value), args.value)
  {
    LookupAgrees(env, "if", strict);
    IndexIsVariable(FlatEnv(env), IndexOf(Scope(env), "if"));
    ApplicationShape(f, fuel, env, Sym("if"), rest);
  }

  function IfTrueOneTwo(): (e: Cell) {
    Pair(Sym("if"), Pair(Bool(true), Pair(Num(1.0), Pair(Num(2.0), Nil))))
  }

  /** Where the condition is not met meaning is lost: with `if` bound to a primitive that
  answers nil, `(if true 1 2)` is 1 by name and nil after conversion. */
  lemma CaptureLosesMeaning(fuel: nat) returns (n: NWorld, f: FWorld, env: NEnv)
    requires fuel > 2
    ensures Corresponds(n, f) && n.formsWin && EnvOk(env, true)
    ensures Fragment(IfTrueOneTwo(), Scope(env), false) && !Fragment(IfTrueOneTwo(), Scope(env), true)
    ensures EvalNamed(n, fuel, env, IfTrueOneTwo()) == Some(NData(Num(1.0)))
    ensures EvalFlat(f, fuel, FlatEnv(env), Convert(IfTrueOneTwo(), ContextOf(env))) == Some(FData(Nil))
    ensures !Preserved(n, f, fuel, env, IfTrueOneTwo())
  {
    n := NWorld(x => NData(Nil), (p, args) => NData(Nil), true);
    f := FWorld(x => FData(Nil), (p, args) => FData(Nil));
    env := Bind(["if"], [NPrim("p")], Empty);
    var e := IfTrueOneTwo();
    assert Scope(env) == ["if"];
    assert FlatAll([NPrim("p")]) == [FPrim("p")];
    CapturedIfIsCall(f, fuel, env, e.cdr, true);
    ThreeArguments(Scope(env));
    LiteralArguments(f, fuel - 1, FlatEnv(env), ContextOf(env));
  }

  lemma ThreeArguments(scope: seq<string>)
    ensures FragmentList(IfTrueOneTwo().cdr, scope, false) && Length(IfTrueOneTwo().cdr) == 3
  {
    var l := IfTrueOneTwo().cdr;
    assert l.cdr.cdr == Pair(Num(2.0), Nil);
    assert FragmentList(l.cdr.cdr, scope, false) && Length(l.cdr.cdr) == 1;
    assert FragmentList(l.cdr, scope, false) && Length(l.cdr) == 2;
  }

  lemma LiteralArguments(f: FWorld, fuel: nat, vec: seq<FVal>, ctx: Context)
    requires fuel > 1
    ensures EvalFlatList(f, fuel, vec, ConvertList(IfTrueOneTwo().cdr, ctx)).Some?
  {
    var l := IfTrueOneTwo().cdr;
    assert EvalFlatList(f, fuel, vec, ConvertList(l.cdr.cdr, ctx)).Some?;
    assert EvalFlatList(f, fuel, vec, ConvertList(l.cdr, ctx)).Some?;
  }

  // ----- the top level -----

  /** The form in which programs run: the top level is not converted, and each lambda
  met there converts its own body.  The result is again the flat image. */
  lemma {:induction false} TopLevelPreservesMeaning(n: NWorld, f: FWorld, fuel: nat, e: Cell)
    requires Corresponds(n, f) && Fragment(e, [], n.formsWin)
    ensures Agree(EvalNamed(n, fuel, Empty, e), EvalFlat(f, fuel, [], e), n.formsWin)
    decreases fuel, e, 0
  {
    if fuel > 0 {
      match e
      case Pair(first, rest) =>
        if first == Sym("lambda") {
          TopLevelLambda(n, f, fuel, e);
        } else if first == Sym("if") {
          FragmentListShape(rest, [], n.formsWin);
          TopLevelPreservesMeaning(n, f, fuel - 1, rest.car);
          TopLevelPreservesMeaning(n, f, fuel - 1, rest.cdr.car);
          TopLevelPreservesMeaning(n, f, fuel - 1, rest.cdr.cdr.car);
          hide Corresponds, Fragment, FragmentList, Agree;
          TopLevelIf(n, f, fuel, rest);
        } else {
          TopLevelPreservesMeaning(n, f, fuel - 1, first);
          TopLevelList(n, f, fuel - 1, rest);
          TopLevelApplication(n, f, fuel, first, rest);
        }
      case _ => TopLevelAtom(n, f, fuel, e);
    }
  }

  lemma TopLevelAtom(n: NWorld, f: FWorld, fuel: nat, e: Cell)
    requires Corresponds(n, f) && fuel > 0 && !e.Pair?
    ensures Agree(EvalNamed(n, fuel, Empty, e), EvalFlat(f, fuel, [], e), n.formsWin)
  {
  }

  lemma TopLevelIf(n: NWorld, f: FWorld, fuel: nat, rest: Cell)
    requires fuel > 0 && Length(rest) == 3 && rest.Pair? && rest.cdr.Pair? && rest.cdr.cdr.Pair?
    requires Agree(EvalNamed(n, fuel - 1, Empty, rest.car), EvalFlat(f, fuel - 1, [], rest.car), n.formsWin)
    requires Agree(EvalNamed(n, fuel - 1, Empty, rest.cdr.car), EvalFlat(f, fuel - 1, [], rest.cdr.car), n.formsWin)
    requires Agree(EvalNamed(n, fuel - 1, Empty, rest.cdr.cdr.car),
                   EvalFlat(f, fuel - 1, [], rest.cdr.cdr.car), n.formsWin)
    ensures Agree(EvalNamed(n, fuel, Empty, Pair(Sym("if"), rest)),
                  EvalFlat(f, fuel, [], Pair(Sym("if"), rest)), n.formsWin)
  {
  }

  lemma TopLevelApplication(n: NWorld, f: FWorld, fuel: nat, first: Cell, rest: Cell)
    requires Corresponds(n, f) && fuel > 0 && (first.Sym? ==> first.name !in SPECIAL)
    requires Agree(EvalNamed(n, fuel - 1, Empty, first), EvalFlat(f, fuel - 1, [], first), n.formsWin)
    requires AgreeAll(EvalNamedList(n, fuel - 1, Empty, rest), EvalFlatList(f, fuel - 1, [], rest), n.formsWin)
    ensures Agree(EvalNamed(n, fuel, Empty, Pair(first, rest)), EvalFlat(f, fuel, [], Pair(first, rest)), n.formsWin)
  {
    hide Corresponds;
    var g, args := EvalNamed(n, fuel - 1, Empty, first), EvalNamedList(n, fuel - 1, Empty, rest);
    if g.Some? && args.Some? {
      ApplyPreserved(n, f, fuel - 1, g.value, args.value);
    }
  }

  lemma TopLevelLambda(n: NWorld, f: FWorld, fuel: nat, e: Cell)
    requires Fragment(e, [], n.formsWin) && fuel > 0 && e.Pair? && e.car == Sym("lambda")
    ensures Agree(EvalNamed(n, fuel, Empty, e), EvalFlat(f, fuel, [], e), n.formsWin)
  {
    PlainParamCount(e.cdr.car);
    var params, body := ParamNames(e.cdr.car), e.cdr.cdr.car;
    assert ValOk(NClo(params, body, Empty), n.formsWin);
    assert Flat(NClo(params, body, Empty)) == FClo([], Convert(body, Frame(params, Top)), |params|);
    assert EvalFlat(f, fuel, [], e) == Some(FClo([], Convert(body, Frame(params, Top)), |params|));
  }

  lemma {:induction false} TopLevelList(n: NWorld, f: FWorld, fuel: nat, l: Cell)
    requires Corresponds(n, f) && FragmentList(l, [], n.formsWin)
    ensures AgreeAll(EvalNamedList(n, fuel, Empty, l), EvalFlatList(f, fuel, [], l), n.formsWin)
    decreases fuel, l, 1
  {
    if l.Pair? {
      TopLevelPreservesMeaning(n, f, fuel, l.car);
      TopLevelList(n, f, fuel, l.cdr);
    }
  }

  // ----- indices in range -----

  /** Every number outside a quotation is an index below `depth`. */
  predicate Scoped(c: Cell, depth: nat)
    decreases c, 0
  {
    match c
    case Num(k) => k >= 0.0 && k == k.Floor as real && k.Floor < depth
    case Pair(first, rest) =>
      if first == Sym("quote") then true
      else if first == Sym(":lambda-converted") then
        rest.Pair? && rest.cdr.Pair? && Scoped(rest.cdr.car, Length(rest.car) + depth)
      else Scoped(first, depth) && ScopedList(rest, depth)
    case _ => true
  }

  predicate ScopedList(l: Cell, depth: nat)
    decreases l, 1
  {
    l.Pair? ==> Scoped(l.car, depth) && ScopedList(l.cdr, depth)
  }

  /** Conversion produces only indices that fit the vector it will run in. */
  lemma {:induction false} IndicesInRange(e: Cell, ctx: Context, strict: bool)
    requires Fragment(e, Names(ctx), strict)
    ensures Scoped(Convert(e, ctx), |Names(ctx)|)
    decreases e, 0
  {
    match e
    case Sym(x) =>
      var i := IndexOf(Names(ctx), x);
      assert (i as real).Floor == i;
    case Pair(first, rest) =>
      if first == Sym("lambda") {
        PlainParamCount(rest.car);
        IndicesInRange(rest.cdr.car, Frame(ParamNames(rest.car), ctx), strict);
      } else {
        IndicesInRange(first, ctx, strict);
        ListIndicesInRange(rest, ctx, strict);
      }
    case _ =>
  }

  lemma {:induction false} ListIndicesInRange(l: Cell, ctx: Context, strict: bool)
    requires FragmentList(l, Names(ctx), strict)
    ensures ScopedList(ConvertList(l, ctx), |Names(ctx)|)
    decreases l, 1
  {
    if l.Pair? {
      IndicesInRange(l.car, ctx, strict);
      ListIndicesInRange(l.cdr, ctx, strict);
    }
  }

  /** The numbers that stand outside quotations, each with the number of variables in scope
  where it stands. */
  function Unquoted(c: Cell, depth: nat): (r: set<(real, nat)>)
    decreases c, 0
  {
    match c
    case Num(k) => {(k, depth)}
    case Pair(first, rest) =>
      if first == Sym("quote") then {}
      else if first == Sym(":lambda-converted") then
        if rest.Pair? && rest.cdr.Pair? then Unquoted(rest.cdr.car, Length(rest.car) + depth) else {}
      else Unquoted(first, depth) + UnquotedList(rest, depth)
    case _ => {}
  }

  function UnquotedList(l: Cell, depth: nat): (r: set<(real, nat)>)
    decreases l, 1
  {
    if l.Pair? then Unquoted(l.car, depth) + UnquotedList(l.cdr, depth) else {}
  }

  predicate IndexBelow(x: (real, nat)) {
    x.0 >= 0.0 && x.0 == x.0.Floor as real && x.0.Floor < x.1
  }

  lemma {:induction false} ScopedNumbers(c: Cell, depth: nat)
    requires Scoped(c, depth)
    ensures forall x :: x in Unquoted(c, depth) ==> IndexBelow(x)
    decreases c, 0
  {
    match c
    case Pair(first, rest) =>
      if first == Sym(":lambda-converted") {
        ScopedNumbers(rest.cdr.car, Length(rest.car) + depth);
      } else if first != Sym("quote") {
        ScopedNumbers(first, depth);
        ScopedNumbersList(rest, depth);
      }
    case _ =>
  }

  lemma {:induction false} ScopedNumbersList(l: Cell, depth: nat)
    requires ScopedList(l, depth)
    ensures forall x :: x in UnquotedList(l, depth) ==> IndexBelow(x)
    decreases l, 1
  {
    if l.Pair? {
      ScopedNumbers(l.car, depth);
      ScopedNumbersList(l.cdr, depth);
    }
  }

  /** The same number by number: every number outside a quotation that conversion leaves in a
  fragment expression is an index of a variable in scope where it stands. */
  lemma NumbersAreIndices(e: Cell, ctx: Context, x: (real, nat))
    requires Fragment(e, Names(ctx), false) && x in Unquoted(Convert(e, ctx), |Names(ctx)|)
    ensures x.0 >= 0.0 && x.0 == x.0.Floor as real && x.0.Floor < x.1
  {
    IndicesInRange(e, ctx, false);
    ScopedNumbers(Convert(e, ctx), |Names(ctx)|);
  }
}
