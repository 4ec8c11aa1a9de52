/** Dynamic binding and non-local exits: the binding stack, the catch list and the handler list of the
    evaluator, and a compositional meaning of Lisp expressions that mentions none of them. */
module Unwind {
  import opened Common

  type Name = string

  datatype Value = Nil | Sym(name: Name) | Int(n: int) | Cons(car: Value, cdr: Value) | Func(f: Name)

  datatype Expr =
    | Quote(v: Value)
    | Var(x: Name)
    | Setq(x: Name, e: Expr)
    | Then(first: Expr, second: Expr)
    | If(test: Expr, yes: Expr, no: Expr)
    | While(test: Expr, body: Expr)
    | Let(binds: Binds, body: Expr)
    | LetX(binds: Binds, body: Expr)
    | Call(f: Name, args: Args)
    | UnwindProtect(body: Expr, cleanup: Expr)
    | Catch(tag: Expr, body: Expr)
    | Throw(tag: Expr, val: Expr)
    | ConditionCase(variable: Option<Name>, body: Expr, clauses: Clauses)
    | Signal(sig: Name, data: Expr)

  datatype Binds = NoBinds | Bind(x: Name, init: Expr, rest: Binds)
  datatype Args = NoArgs | Arg(e: Expr, rest: Args)
  datatype Clauses = NoClauses | Clause(condition: Name, body: Expr, rest: Clauses)
  datatype Param = Param(x: Name) | AndOptional | AndRest
  datatype Lambda = Lambda(params: seq<Param>, body: Expr)

  /** The function definitions, and the error-conditions property of each signal name. */
  datatype Program = Program(fns: map<Name, Lambda>, props: map<Name, seq<Name>>)

  /** `ticks`: at each loop iteration and each function call, has the user asked to quit?  Once it is
      used up, the user quits every time.  `trace`: the cleanup forms that have been started. */
  datatype St = St(vars: map<Name, Value>, ticks: seq<bool>, trace: seq<Expr>)

  const T := Sym("t")
  const TOP := Sym("top-level")

  // ---- sizes ----

  ghost function Size(e: Expr): (n: nat)
    ensures n >= 1
  {
    match e
    case Quote(_) => 1
    case Var(_) => 1
    case Setq(_, a) => 1 + Size(a)
    case Then(a, b) => 1 + Size(a) + Size(b)
    case If(a, b, c) => 1 + Size(a) + Size(b) + Size(c)
    case While(a, b) => 1 + Size(a) + Size(b)
    case Let(bs, b) => 1 + BindsSize(bs) + Size(b)
    case LetX(bs, b) => 1 + BindsSize(bs) + Size(b)
    case Call(_, args) => 1 + ArgsSize(args)
    case UnwindProtect(b, c) => 2 + Size(b) + Size(c)
    case Catch(a, b) => 1 + Size(a) + Size(b)
    case Throw(a, b) => 1 + Size(a) + Size(b)
    case ConditionCase(_, b, cs) => 1 + Size(b) + ClausesSize(cs)
    case Signal(_, a) => 1 + Size(a)
  }

  ghost function BindsSize(bs: Binds): nat {
    match bs
    case NoBinds => 0
    case Bind(_, e, rest) => 1 + Size(e) + BindsSize(rest)
  }

  ghost function ArgsSize(args: Args): nat {
    match args
    case NoArgs => 0
    case Arg(e, rest) => 1 + Size(e) + ArgsSize(rest)
  }

  ghost function ClausesSize(cs: Clauses): nat {
    match cs
    case NoClauses => 0
    case Clause(_, e, rest) => 1 + Size(e) + ClausesSize(rest)
  }

  // ---- parts of forms ----

  function Length(cs: Clauses): nat {
    if cs.NoClauses? then 0 else 1 + Length(cs.rest)
  }

  function Nth(cs: Clauses, k: nat): (e: Expr)
    requires k < Length(cs)
    ensures Size(e) < ClausesSize(cs)
  {
    if k == 0 then cs.body else Nth(cs.rest, k - 1)
  }

  /** The first clause for one of `conditions`; Length(cs) if there is none. */
  function FirstMatch(cs: Clauses, conditions: seq<Name>): (k: nat)
    ensures k <= Length(cs)
  {
    if cs.NoClauses? then 0
    else if cs.condition in conditions then 0
    else 1 + FirstMatch(cs.rest, conditions)
  }

  function Inits(bs: Binds): (args: Args)
    ensures ArgsSize(args) == BindsSize(bs)
  {
    match bs
    case NoBinds => NoArgs
    case Bind(_, e, rest) => Arg(e, Inits(rest))
  }

  function Names(bs: Binds): seq<Name> {
    if bs.NoBinds? then [] else [bs.x] + Names(bs.rest)
  }

  function List(vs: seq<Value>): Value {
    if vs == [] then Nil else Cons(vs[0], List(vs[1..]))
  }

  // ---- variables ----

  type Pairs = seq<(Name, Value)>

  function Zip(xs: seq<Name>, vs: seq<Value>): Pairs
  {
    if xs == [] || vs == [] then [] else [(xs[0], vs[0])] + Zip(xs[1..], vs[1..])
  }

  /** The variables of `ps` set one after the other. */
  ghost function BindVars(vars: map<Name, Value>, ps: Pairs): map<Name, Value> {
    if ps == [] then vars
    else
      var p := ps[|ps| - 1];
      BindVars(vars, ps[..|ps| - 1])[p.0 := p.1]
  }

  ghost function Bound(ps: Pairs): set<Name> {
    set i | 0 <= i < |ps| :: ps[i].0
  }

  /** `vars`, but `xs` as in `before`. */
  ghost function Restored(vars: map<Name, Value>, before: map<Name, Value>, xs: set<Name>): map<Name, Value> {
    map x | x in vars.Keys + before.Keys && (if x in xs then x in before else x in vars) ::
      if x in xs then before[x] else vars[x]
  }

  /** The bindings a lambda list makes, and whether the number of arguments is right.  `i` arguments
      have been used. */
  ghost function Match(params: seq<Param>, vs: seq<Value>, i: nat, optional: bool, rest: bool): (r: (Pairs, bool))
    requires i <= |vs|
  {
    if params == [] then ([], i == |vs|)
    else match params[0]
      case AndRest => Match(params[1..], vs, i, optional, true)
      case AndOptional => Match(params[1..], vs, i, true, rest)
      case Param(x) =>
        if rest then
          var r := Match(params[1..], vs, |vs|, optional, rest);
          ([(x, List(vs[i..]))] + r.0, r.1)
        else if i < |vs| then
          var r := Match(params[1..], vs, i + 1, optional, rest);
          ([(x, vs[i])] + r.0, r.1)
        else if optional then
          var r := Match(params[1..], vs, i, optional, rest);
          ([(x, Nil)] + r.0, r.1)
        else ([], false)
  }

  // ---- what an expression means ----

  /** What is waiting around an expression: catches, and condition-cases. */
  datatype Frame = CatchFrame(tag: Value) | HandlerFrame(clauses: Clauses)

  /** What arrives at a catch, or at a condition-case: the clause found, and the value for its
      variable. */
  datatype Payload = Thrown(v: Value) | Caught(k: nat, v: Value)

  /** A value, or an exit to the frame at `level`. */
  datatype Out = Normal(v: Value) | Exit(level: nat, p: Payload)

  ghost predicate Based(ctx: seq<Frame>) {
    |ctx| > 0 && ctx[0] == CatchFrame(TOP)
  }

  ghost predicate Fits(ctx: seq<Frame>, o: Out) {
    o.Exit? ==>
      && o.level < |ctx|
      && (ctx[o.level].CatchFrame? <==> o.p.Thrown?)
      && (o.p.Caught? ==> o.p.k < Length(ctx[o.level].clauses))
  }

  /** The innermost catch for `tag`, or -1. */
  ghost function FindCatch(ctx: seq<Frame>, tag: Value): (i: int)
    ensures -1 <= i < |ctx| && (i >= 0 ==> ctx[i] == CatchFrame(tag))
    ensures |ctx| > 0 && ctx[0] == CatchFrame(tag) ==> i >= 0
  {
    if ctx == [] then -1
    else if ctx[|ctx| - 1] == CatchFrame(tag) then |ctx| - 1
    else FindCatch(ctx[..|ctx| - 1], tag)
  }

  lemma LastCatch(ctx: seq<Frame>, last: Frame, tag: Value)
    requires ctx != [] && last == ctx[|ctx| - 1]
    ensures FindCatch(ctx, tag) == if last == CatchFrame(tag) then |ctx| - 1 else FindCatch(ctx[..|ctx| - 1], tag)
  {
  }

  lemma NoCatch(tag: Value)
    ensures FindCatch([], tag) == -1
  {
  }

  lemma CatchIsThere(ctx: seq<Frame>, tag: Value)
    requires FindCatch(ctx, tag) >= 0
    ensures FindCatch(ctx, tag) < |ctx| && ctx[FindCatch(ctx, tag)] == CatchFrame(tag)
  {
  }

  ghost predicate Handles(f: Frame, conditions: seq<Name>) {
    f.HandlerFrame? && FirstMatch(f.clauses, conditions) < Length(f.clauses)
  }

  /** The innermost condition-case with a clause for one of `conditions`, or -1. */
  ghost function FindHandler(ctx: seq<Frame>, conditions: seq<Name>): (i: int)
    ensures -1 <= i < |ctx| && (i >= 0 ==> Handles(ctx[i], conditions))
  {
    if ctx == [] then -1
    else if Handles(ctx[|ctx| - 1], conditions) then |ctx| - 1
    else FindHandler(ctx[..|ctx| - 1], conditions)
  }

  function Conditions(pr: Program, sig: Name): seq<Name> {
    if sig in pr.props then pr.props[sig] else []
  }

  ghost function SignalTo(ctx: seq<Frame>, pr: Program, sig: Name, data: Value): (o: Out)
    requires Based(ctx)
    ensures o.Exit? && Fits(ctx, o)
  {
    var conditions := Conditions(pr, sig);
    var i := FindHandler(ctx, conditions);
    if i >= 0 then Exit(i, Caught(FirstMatch(ctx[i].clauses, conditions), Cons(Sym(sig), data)))
    else Exit(FindCatch(ctx, TOP), Thrown(T))
  }

  ghost function ThrowTo(ctx: seq<Frame>, pr: Program, tag: Value, v: Value): (o: Out)
    requires Based(ctx)
    ensures o.Exit? && Fits(ctx, o)
  {
    if tag != Nil && FindCatch(ctx, tag) >= 0 then Exit(FindCatch(ctx, tag), Thrown(v))
    else SignalTo(ctx, pr, "no-catch", Cons(tag, Cons(v, Nil)))
  }

  /** Does the user quit here? */
  ghost function Poll(st: St): (r: (St, bool))
    ensures |r.0.ticks| <= |st.ticks| && (!r.1 ==> |r.0.ticks| < |st.ticks|)
    ensures r.0.vars == st.vars && r.0.trace == st.trace
  {
    if st.ticks == [] then (st, true) else (st.(ticks := st.ticks[1..]), st.ticks[0])
  }

  ghost predicate Less(st: St, r: St) {
    |r.ticks| <= |st.ticks|
  }

  /** The state and outcome of `e` from `st`, with `ctx` waiting around it. */
  ghost function Ref(e: Expr, st: St, ctx: seq<Frame>, pr: Program): (r: (St, Out))
    requires Based(ctx)
    ensures Less(st, r.0) && Fits(ctx, r.1)
    decreases |st.ticks|, Size(e), 1
  {
    hide SignalTo, ThrowTo, FindCatch, FindHandler, Handles, Conditions, Poll, BindVars, Restored, Bound, Zip, Names,
         FirstMatch, Match, List;
    match e
    case Quote(v) => (st, Normal(v))
    case Var(x) =>
      if x in st.vars then (st, Normal(st.vars[x]))
      else (st, SignalTo(ctx, pr, "void-variable", Cons(Sym(x), Nil)))
    case Setq(x, a) =>
      var r := Ref(a, st, ctx, pr);
      if r.1.Exit? then r else (r.0.(vars := r.0.vars[x := r.1.v]), r.1)
    case Then(a, b) =>
      var r := Ref(a, st, ctx, pr);
      if r.1.Exit? then r else Ref(b, r.0, ctx, pr)
    case If(a, b, c) =>
      var r := Ref(a, st, ctx, pr);
      if r.1.Exit? then r else Ref(if r.1.v != Nil then b else c, r.0, ctx, pr)
    case While(a, b) =>
      var r := Ref(a, st, ctx, pr);
      if r.1.Exit? then r
      else if r.1.v == Nil then (r.0, Normal(Nil))
      else
        var q := Poll(r.0);
        if q.1 then (q.0, SignalTo(ctx, pr, "quit", Nil))
        else
          var s := Ref(b, q.0, ctx, pr);
          if s.1.Exit? then s else Ref(e, s.0, ctx, pr)
    case Let(bs, b) =>
      var r := RefArgs(Inits(bs), st, ctx, pr);
      if r.1.Exit? then (r.0, r.1) else RefWithin(Zip(Names(bs), r.2), b, r.0, ctx, pr)
    case LetX(bs, b) => RefLetX(bs, b, st, ctx, pr)
    case Call(f, args) =>
      var q := Poll(st);
      if q.1 then (q.0, SignalTo(ctx, pr, "quit", Nil))
      else if f !in pr.fns then (q.0, SignalTo(ctx, pr, "void-function", Cons(Sym(f), Nil)))
      else
        var r := RefArgs(args, q.0, ctx, pr);
        if r.1.Exit? then (r.0, r.1) else RefApply(f, r.2, r.0, ctx, pr)
    case UnwindProtect(b, c) => Cleaned(Ref(b, st, ctx, pr), c, ctx, pr)
    case Catch(a, b) =>
      var r := Ref(a, st, ctx, pr);
      if r.1.Exit? then r
      else
        var s := Ref(b, r.0, ctx + [CatchFrame(r.1.v)], pr);
        if s.1.Exit? && s.1.level == |ctx| then (s.0, Normal(s.1.p.v)) else s
    case Throw(a, b) =>
      var r := Ref(a, st, ctx, pr);
      if r.1.Exit? then r
      else
        var s := Ref(b, r.0, ctx, pr);
        if s.1.Exit? then s else (s.0, ThrowTo(ctx, pr, r.1.v, s.1.v))
    case ConditionCase(x, b, cs) =>
      var s := Ref(b, st, ctx + [HandlerFrame(cs)], pr);
      if s.1.Exit? && s.1.level == |ctx| then
        RefWithin(if x.Some? then [(x.value, s.1.p.v)] else [], Nth(cs, s.1.p.k), s.0, ctx, pr)
      else s
    case Signal(sig, a) =>
      var r := Ref(a, st, ctx, pr);
      if r.1.Exit? then r else (r.0, SignalTo(ctx, pr, sig, r.1.v))
  }

  /** `r`, and then the cleanup form `c`: an exit from it replaces `r`. */
  ghost function Cleaned(r: (St, Out), c: Expr, ctx: seq<Frame>, pr: Program): (s: (St, Out))
    requires Based(ctx) && Fits(ctx, r.1)
    ensures Less(r.0, s.0) && Fits(ctx, s.1)
    decreases |r.0.ticks|, Size(c), 2
  {
    var s := Ref(c, r.0.(trace := r.0.trace + [c]), ctx, pr);
    if s.1.Exit? then s else (s.0, r.1)
  }

  /** Arguments in order. */
  ghost function RefArgs(args: Args, st: St, ctx: seq<Frame>, pr: Program): (r: (St, Out, seq<Value>))
    requires Based(ctx)
    ensures Less(st, r.0) && Fits(ctx, r.1)
    decreases |st.ticks|, ArgsSize(args), 1
  {
    match args
    case NoArgs => (st, Normal(Nil), [])
    case Arg(e, rest) =>
      var r := Ref(e, st, ctx, pr);
      if r.1.Exit? then (r.0, r.1, [])
      else
        var s := RefArgs(rest, r.0, ctx, pr);
        (s.0, s.1, [r.1.v] + s.2)
  }

  /** A lambda applied to arguments. */
  ghost function RefApply(f: Name, vs: seq<Value>, st: St, ctx: seq<Frame>, pr: Program): (r: (St, Out))
    requires Based(ctx) && f in pr.fns
    ensures Less(st, r.0) && Fits(ctx, r.1)
    decreases |st.ticks|, Size(pr.fns[f].body), 3
  {
    var m := Match(pr.fns[f].params, vs, 0, false, false);
    if m.1 then RefWithin(m.0, pr.fns[f].body, st, ctx, pr)
    else (st, SignalTo(ctx, pr, "wrong-number-of-arguments", Cons(Func(f), Cons(Int(|vs|), Nil))))
  }

  /** `b` with the variables of `ps` bound; whatever happens, they have their old values after. */
  ghost function RefWithin(ps: Pairs, b: Expr, st: St, ctx: seq<Frame>, pr: Program): (r: (St, Out))
    requires Based(ctx)
    ensures Less(st, r.0) && Fits(ctx, r.1)
    decreases |st.ticks|, Size(b), 2
  {
    var s := Ref(b, st.(vars := BindVars(st.vars, ps)), ctx, pr);
    (s.0.(vars := Restored(s.0.vars, st.vars, Bound(ps))), s.1)
  }

  /** let*: each variable is bound before the next one is computed. */
  ghost function RefLetX(bs: Binds, b: Expr, st: St, ctx: seq<Frame>, pr: Program): (r: (St, Out))
    requires Based(ctx)
    ensures Less(st, r.0) && Fits(ctx, r.1)
    decreases |st.ticks|, BindsSize(bs) + Size(b), 2
  {
    match bs
    case NoBinds => Ref(b, st, ctx, pr)
    case Bind(x, e, rest) =>
      var r := Ref(e, st, ctx, pr);
      if r.1.Exit? then r
      else
        var s := RefLetX(rest, b, r.0.(vars := r.0.vars[x := r.1.v]), ctx, pr);
        (s.0.(vars := Restored(s.0.vars, r.0.vars, {x})), s.1)
  }

  lemma RefCall(f: Name, args: Args, st: St, ctx: seq<Frame>, pr: Program)
    requires Based(ctx)
    ensures var q := Poll(st);
            Ref(Call(f, args), st, ctx, pr) ==
            if q.1 then (q.0, SignalTo(ctx, pr, "quit", Nil))
            else if f !in pr.fns then (q.0, SignalTo(ctx, pr, "void-function", Cons(Sym(f), Nil)))
            else
              var r := RefArgs(args, q.0, ctx, pr);
              if r.1.Exit? then (r.0, r.1) else RefApply(f, r.2, r.0, ctx, pr)
  {
  }

  lemma RefArgsOf(args: Args, st: St, ctx: seq<Frame>, pr: Program)
    requires Based(ctx)
    ensures RefArgs(args, st, ctx, pr) ==
            match args
            case NoArgs => (st, Normal(Nil), [])
            case Arg(e, rest) =>
              var r := Ref(e, st, ctx, pr);
              if r.1.Exit? then (r.0, r.1, []) else var s := RefArgs(rest, r.0, ctx, pr); (s.0, s.1, [r.1.v] + s.2)
  {
  }

  // ---- what the meaning promises ----

  /** Outside bindings of `x`, the form never sets `x`. */
  ghost predicate Quiet(e: Expr, x: Name)
    decreases Size(e), 1
  {
    match e
    case Quote(_) => true
    case Var(_) => true
    case Setq(y, a) => y != x && Quiet(a, x)
    case Then(a, b) => Quiet(a, x) && Quiet(b, x)
    case If(a, b, c) => Quiet(a, x) && Quiet(b, x) && Quiet(c, x)
    case While(a, b) => Quiet(a, x) && Quiet(b, x)
    case Let(bs, b) => QuietArgs(Inits(bs), x) && (x in Names(bs) || Quiet(b, x))
    case LetX(bs, b) => QuietLetX(bs, b, x)
    case Call(_, args) => QuietArgs(args, x)
    case UnwindProtect(b, c) => Quiet(b, x) && Quiet(c, x)
    case Catch(a, b) => Quiet(a, x) && Quiet(b, x)
    case Throw(a, b) => Quiet(a, x) && Quiet(b, x)
    case ConditionCase(v, b, cs) =>
      Quiet(b, x) && (v == Some(x) || forall k :: 0 <= k < Length(cs) ==> Quiet(Nth(cs, k), x))
    case Signal(_, a) => Quiet(a, x)
  }

  ghost predicate QuietArgs(args: Args, x: Name)
    decreases ArgsSize(args), 0
  {
    args.Arg? ==> Quiet(args.e, x) && QuietArgs(args.rest, x)
  }

  ghost predicate QuietLetX(bs: Binds, b: Expr, x: Name)
    decreases BindsSize(bs) + Size(b), 2
  {
    match bs
    case NoBinds => Quiet(b, x)
    case Bind(y, e, rest) => Quiet(e, x) && (y == x || QuietLetX(rest, b, x))
  }

  ghost predicate QuietProgram(pr: Program, x: Name) {
    forall f :: f in pr.fns ==> Param(x) in pr.fns[f].params || Quiet(pr.fns[f].body, x)
  }

  ghost predicate Keeps(st: St, r: St, x: Name) {
    Lookup(r.vars, x) == Lookup(st.vars, x)
  }

  lemma {:induction false} ZipBinds(xs: seq<Name>, vs: seq<Value>, x: Name)
    requires |xs| == |vs| && x in xs
    ensures x in Bound(Zip(xs, vs))
  {
    var z := Zip(xs, vs);
    assert z[0].0 == xs[0];
    if xs[0] != x {
      ZipBinds(xs[1..], vs[1..], x);
      var i :| 0 <= i < |z[1..]| && z[1..][i].0 == x;
      assert z[i + 1].0 == x;
    }
  }

  lemma {:induction false} MatchBinds(params: seq<Param>, vs: seq<Value>, i: nat, optional: bool, rest: bool, x: Name)
    requires i <= |vs| && Param(x) in params
    ensures var m := Match(params, vs, i, optional, rest); m.1 ==> x in Bound(m.0)
  {
    var m := Match(params, vs, i, optional, rest);
    if m.1 {
      match params[0]
      case AndRest => MatchBinds(params[1..], vs, i, optional, true, x);
      case AndOptional => MatchBinds(params[1..], vs, i, true, rest, x);
      case Param(y) =>
        assert m.0[0].0 == y;
        if y != x {
          MatchBinds(params[1..], vs, if rest then |vs| else if i < |vs| then i + 1 else i, optional, rest, x);
          var j :| 0 <= j < |m.0[1..]| && m.0[1..][j].0 == x;
          assert m.0[j + 1].0 == x;
        }
    }
  }

  function Count(args: Args): nat {
    if args.NoArgs? then 0 else 1 + Count(args.rest)
  }

  lemma {:induction false} ArgsKeep(args: Args, st: St, ctx: seq<Frame>, pr: Program, x: Name)
    requires Based(ctx) && QuietProgram(pr, x) && QuietArgs(args, x)
    ensures var r := RefArgs(args, st, ctx, pr); Keeps(st, r.0, x) && (r.1.Normal? ==> |r.2| == Count(args))
    decreases |st.ticks|, ArgsSize(args), 1
  {
    if args.Arg? {
      Undisturbed(args.e, st, ctx, pr, x);
      var r := Ref(args.e, st, ctx, pr);
      if r.1.Normal? {
        ArgsKeep(args.rest, r.0, ctx, pr, x);
      }
    }
  }

  lemma {:induction false} WithinKeeps(ps: Pairs, b: Expr, st: St, ctx: seq<Frame>, pr: Program, x: Name)
    requires Based(ctx) && QuietProgram(pr, x) && (x in Bound(ps) || Quiet(b, x))
    ensures Keeps(st, RefWithin(ps, b, st, ctx, pr).0, x)
    decreases |st.ticks|, Size(b), 2
  {
    if x !in Bound(ps) {
      BindVarsElsewhere(st.vars, ps, x);
      Undisturbed(b, st.(vars := BindVars(st.vars, ps)), ctx, pr, x);
    }
  }

  lemma {:induction false} LetXKeeps(bs: Binds, b: Expr, st: St, ctx: seq<Frame>, pr: Program, x: Name)
    requires Based(ctx) && QuietProgram(pr, x) && QuietLetX(bs, b, x)
    ensures Keeps(st, RefLetX(bs, b, st, ctx, pr).0, x)
    decreases |st.ticks|, BindsSize(bs) + Size(b), 2
  {
    hide Ref, Quiet, QuietProgram;
    match bs
    case NoBinds => Undisturbed(b, st, ctx, pr, x);
    case Bind(y, e, rest) =>
      Undisturbed(e, st, ctx, pr, x);
      var r := Ref(e, st, ctx, pr);
      if r.1.Normal? && y != x {
        LetXKeeps(rest, b, r.0.(vars := r.0.vars[y := r.1.v]), ctx, pr, x);
      }
  }

  lemma {:induction false} CallKeeps(f: Name, args: Args, st: St, ctx: seq<Frame>, pr: Program, x: Name)
    requires Based(ctx) && QuietProgram(pr, x) && QuietArgs(args, x)
    ensures Keeps(st, Ref(Call(f, args), st, ctx, pr).0, x)
    decreases |st.ticks|, Size(Call(f, args)), 0
  {
    var q := Poll(st);
    if !q.1 && f in pr.fns {
      ArgsKeep(args, q.0, ctx, pr, x);
      var r := RefArgs(args, q.0, ctx, pr);
      if r.1.Normal? {
        var m := Match(pr.fns[f].params, r.2, 0, false, false);
        if m.1 {
          if Param(x) in pr.fns[f].params {
            MatchBinds(pr.fns[f].params, r.2, 0, false, false, x);
          }
          WithinKeeps(m.0, pr.fns[f].body, r.0, ctx, pr, x);
        }
      }
    }
  }

  lemma NamesCount(bs: Binds)
    ensures |Names(bs)| == Count(Inits(bs))
  {
  }

  /** Dynamic binding: a form that sets `x` only inside bindings of `x` leaves it as it was, whether it
      ends with a value or with an exit, and whatever exits its cleanup forms make. */
  lemma {:induction false} Undisturbed(e: Expr, st: St, ctx: seq<Frame>, pr: Program, x: Name)
    requires Based(ctx) && QuietProgram(pr, x) && Quiet(e, x)
    ensures Keeps(st, Ref(e, st, ctx, pr).0, x)
    decreases |st.ticks|, Size(e), 1
  {
    match e
    case Quote(_) =>
    case Var(_) =>
    case Setq(_, a) => Undisturbed(a, st, ctx, pr, x);
    case Then(a, b) => BothKeep(a, b, st, ctx, pr, x);
    case If(a, b, c) =>
      BothKeep(a, b, st, ctx, pr, x);
      BothKeep(a, c, st, ctx, pr, x);
    case While(a, b) =>
      Undisturbed(a, st, ctx, pr, x);
      var r := Ref(a, st, ctx, pr);
      var q := Poll(r.0);
      if r.1.Normal? && r.1.v != Nil && !q.1 {
        BothKeep(b, e, q.0, ctx, pr, x);
      }
    case Let(bs, b) => LetKeeps(bs, b, st, ctx, pr, x);
    case LetX(bs, b) => LetXKeeps(bs, b, st, ctx, pr, x);
    case Call(f, args) => CallKeeps(f, args, st, ctx, pr, x);
    case UnwindProtect(b, c) =>
      Undisturbed(b, st, ctx, pr, x);
      var r := Ref(b, st, ctx, pr);
      Undisturbed(c, r.0.(trace := r.0.trace + [c]), ctx, pr, x);
    case Catch(a, b) =>
      Undisturbed(a, st, ctx, pr, x);
      var r := Ref(a, st, ctx, pr);
      if r.1.Normal? {
        Undisturbed(b, r.0, ctx + [CatchFrame(r.1.v)], pr, x);
      }
    case Throw(a, b) => BothKeep(a, b, st, ctx, pr, x);
    case ConditionCase(v, b, cs) => ConditionKeeps(v, b, cs, st, ctx, pr, x);
    case Signal(_, a) => Undisturbed(a, st, ctx, pr, x);
  }

  lemma {:induction false} BothKeep(a: Expr, b: Expr, st: St, ctx: seq<Frame>, pr: Program, x: Name)
    requires Based(ctx) && QuietProgram(pr, x) && Quiet(a, x) && Quiet(b, x)
    ensures Keeps(st, Ref(a, st, ctx, pr).0, x) && Keeps(st, Ref(b, Ref(a, st, ctx, pr).0, ctx, pr).0, x)
    decreases |st.ticks|, Size(a) + Size(b), 1
  {
    hide Ref, Quiet, QuietProgram;
    Undisturbed(a, st, ctx, pr, x);
    Undisturbed(b, Ref(a, st, ctx, pr).0, ctx, pr, x);
  }

  lemma {:induction false} LetKeeps(bs: Binds, b: Expr, st: St, ctx: seq<Frame>, pr: Program, x: Name)
    requires Based(ctx) && QuietProgram(pr, x) && QuietArgs(Inits(bs), x) && (x in Names(bs) || Quiet(b, x))
    ensures var r := RefArgs(Inits(bs), st, ctx, pr);
            && Keeps(st, r.0, x)
            && (r.1.Normal? ==> Keeps(st, RefWithin(Zip(Names(bs), r.2), b, r.0, ctx, pr).0, x))
    decreases |st.ticks|, BindsSize(bs) + Size(b), 3
  {
    hide Ref, RefWithin, Quiet, QuietProgram, QuietArgs;
    ArgsKeep(Inits(bs), st, ctx, pr, x);
    var r := RefArgs(Inits(bs), st, ctx, pr);
    if r.1.Normal? {
      NamesCount(bs);
      if x in Names(bs) {
        ZipBinds(Names(bs), r.2, x);
      }
      WithinKeeps(Zip(Names(bs), r.2), b, r.0, ctx, pr, x);
    }
  }

  lemma {:induction false} ConditionKeeps(v: Option<Name>, b: Expr, cs: Clauses, st: St, ctx: seq<Frame>,
                                          pr: Program, x: Name)
    requires Based(ctx) && QuietProgram(pr, x) && Quiet(b, x)
    requires v == Some(x) || forall k :: 0 <= k < Length(cs) ==> Quiet(Nth(cs, k), x)
    ensures Keeps(st, Ref(ConditionCase(v, b, cs), st, ctx, pr).0, x)
    decreases |st.ticks|, Size(ConditionCase(v, b, cs)), 0
  {
    var inside := ctx + [HandlerFrame(cs)];
    Undisturbed(b, st, inside, pr, x);
    var s := Ref(b, st, inside, pr);
    assert inside[|ctx|] == HandlerFrame(cs);
    if s.1.Exit? && s.1.level == |ctx| {
      var ps := if v.Some? then [(v.value, s.1.p.v)] else [];
      if v == Some(x) {
        assert ps[0].0 == x;
        assert x in Bound(ps);
      } else {
        assert s.1.p.k < Length(cs);
        assert Quiet(Nth(cs, s.1.p.k), x);
      }
      WithinKeeps(ps, Nth(cs, s.1.p.k), s.0, ctx, pr, x);
    }
  }

  ghost predicate Grows(st: St, r: St) {
    |st.trace| <= |r.trace| && r.trace[..|st.trace|] == st.trace
  }

  lemma GrowsOn(a: St, b: St, c: St)
    requires Grows(a, b) && Grows(b, c)
    ensures Grows(a, c)
  {
    assert c.trace[..|a.trace|] == c.trace[..|b.trace|][..|a.trace|];
  }

  lemma {:induction false} ArgsGrow(args: Args, st: St, ctx: seq<Frame>, pr: Program)
    requires Based(ctx)
    ensures Grows(st, RefArgs(args, st, ctx, pr).0)
    decreases |st.ticks|, ArgsSize(args), 1
  {
    if args.Arg? {
      TraceGrows(args.e, st, ctx, pr);
      var r := Ref(args.e, st, ctx, pr);
      if r.1.Normal? {
        ArgsGrow(args.rest, r.0, ctx, pr);
        GrowsOn(st, r.0, RefArgs(args.rest, r.0, ctx, pr).0);
      }
    }
  }

  lemma {:induction false} LetXGrows(bs: Binds, b: Expr, st: St, ctx: seq<Frame>, pr: Program)
    requires Based(ctx)
    ensures Grows(st, RefLetX(bs, b, st, ctx, pr).0)
    decreases |st.ticks|, BindsSize(bs) + Size(b), 2
  {
    match bs
    case NoBinds => TraceGrows(b, st, ctx, pr);
    case Bind(y, e, rest) =>
      TraceGrows(e, st, ctx, pr);
      var r := Ref(e, st, ctx, pr);
      if r.1.Normal? {
        var st' := r.0.(vars := r.0.vars[y := r.1.v]);
        LetXGrows(rest, b, st', ctx, pr);
        GrowsOn(st, st', RefLetX(rest, b, st', ctx, pr).0);
      }
  }

  lemma {:induction false} CallGrows(f: Name, args: Args, st: St, ctx: seq<Frame>, pr: Program)
    requires Based(ctx)
    ensures Grows(st, Ref(Call(f, args), st, ctx, pr).0)
    decreases |st.ticks|, Size(Call(f, args)), 0
  {
    var q := Poll(st);
    if !q.1 && f in pr.fns {
      ArgsGrow(args, q.0, ctx, pr);
      var r := RefArgs(args, q.0, ctx, pr);
      if r.1.Normal? {
        var ps := Match(pr.fns[f].params, r.2, 0, false, false).0;
        var st' := r.0.(vars := BindVars(r.0.vars, ps));
        TraceGrows(pr.fns[f].body, st', ctx, pr);
        GrowsOn(q.0, st', Ref(pr.fns[f].body, st', ctx, pr).0);
        assert Grows(q.0, RefApply(f, r.2, r.0, ctx, pr).0);
      }
    }
  }

  /** `a`, and then `b`. */
  lemma {:induction false} BothGrow(a: Expr, b: Expr, st: St, ctx: seq<Frame>, pr: Program)
    requires Based(ctx)
    ensures Grows(st, Ref(a, st, ctx, pr).0) && Grows(st, Ref(b, Ref(a, st, ctx, pr).0, ctx, pr).0)
    decreases |st.ticks|, Size(a) + Size(b), 2
  {
    TraceGrows(a, st, ctx, pr);
    var r := Ref(a, st, ctx, pr);
    TraceGrows(b, r.0, ctx, pr);
    GrowsOn(st, r.0, Ref(b, r.0, ctx, pr).0);
  }

  /** Cleanup forms that have been started stay started, in order. */
  lemma {:induction false} TraceGrows(e: Expr, st: St, ctx: seq<Frame>, pr: Program)
    requires Based(ctx)
    ensures Grows(st, Ref(e, st, ctx, pr).0)
    decreases |st.ticks|, Size(e), 1
  {
    hide SignalTo, ThrowTo, FindCatch, FindHandler, Handles, Conditions, FirstMatch, Match, List, BindVars, Zip, Names;
    match e
    case Quote(_) =>
    case Var(_) =>
    case Setq(_, a) => TraceGrows(a, st, ctx, pr);
    case Then(a, b) => BothGrow(a, b, st, ctx, pr);
    case If(a, b, c) =>
      BothGrow(a, b, st, ctx, pr);
      BothGrow(a, c, st, ctx, pr);
    case While(a, b) =>
      TraceGrows(a, st, ctx, pr);
      var r := Ref(a, st, ctx, pr);
      var q := Poll(r.0);
      if r.1.Normal? && r.1.v != Nil && !q.1 {
        BothGrow(b, e, q.0, ctx, pr);
        GrowsOn(st, q.0, Ref(b, q.0, ctx, pr).0);
        GrowsOn(st, q.0, Ref(e, Ref(b, q.0, ctx, pr).0, ctx, pr).0);
      }
    case Let(bs, b) =>
      ArgsGrow(Inits(bs), st, ctx, pr);
      var r := RefArgs(Inits(bs), st, ctx, pr);
      if r.1.Normal? {
        var st' := r.0.(vars := BindVars(r.0.vars, Zip(Names(bs), r.2)));
        TraceGrows(b, st', ctx, pr);
        GrowsOn(st, st', Ref(b, st', ctx, pr).0);
      }
    case LetX(bs, b) => LetXGrows(bs, b, st, ctx, pr);
    case Call(f, args) => CallGrows(f, args, st, ctx, pr);
    case UnwindProtect(b, c) => CleanupOnce(b, c, st, ctx, pr);
    case Catch(a, b) =>
      TraceGrows(a, st, ctx, pr);
      var r := Ref(a, st, ctx, pr);
      if r.1.Normal? {
        var inside := ctx + [CatchFrame(r.1.v)];
        TraceGrows(b, r.0, inside, pr);
        GrowsOn(st, r.0, Ref(b, r.0, inside, pr).0);
      }
    case Throw(a, b) => BothGrow(a, b, st, ctx, pr);
    case ConditionCase(v, b, cs) => ConditionGrows(v, b, cs, st, ctx, pr);
    case Signal(_, a) => TraceGrows(a, st, ctx, pr);
  }

  lemma {:induction false} ConditionGrows(v: Option<Name>, b: Expr, cs: Clauses, st: St, ctx: seq<Frame>, pr: Program)
    requires Based(ctx)
    ensures Grows(st, Ref(ConditionCase(v, b, cs), st, ctx, pr).0)
    decreases |st.ticks|, Size(ConditionCase(v, b, cs)), 0
  {
    var inside := ctx + [HandlerFrame(cs)];
    TraceGrows(b, st, inside, pr);
    var s := Ref(b, st, inside, pr);
    assert inside[|ctx|] == HandlerFrame(cs);
    if s.1.Exit? && s.1.level == |ctx| {
      assert s.1.p.k < Length(cs);
      var ps := if v.Some? then [(v.value, s.1.p.v)] else [];
      var st' := s.0.(vars := BindVars(s.0.vars, ps));
      TraceGrows(Nth(cs, s.1.p.k), st', ctx, pr);
      GrowsOn(st, st', Ref(Nth(cs, s.1.p.k), st', ctx, pr).0);
    }
  }

  /** However the body ends, the cleanup form is started exactly once, after every cleanup form the body
      started and before any that it starts itself. */
  lemma {:induction false} CleanupOnce(b: Expr, c: Expr, st: St, ctx: seq<Frame>, pr: Program)
    requires Based(ctx)
    ensures var r := Ref(b, st, ctx, pr);
            var started := r.0.(trace := r.0.trace + [c]);
            && Grows(st, r.0) && Grows(started, Ref(UnwindProtect(b, c), st, ctx, pr).0)
            && Ref(UnwindProtect(b, c), st, ctx, pr).0 == Ref(c, started, ctx, pr).0
            && Grows(st, Ref(UnwindProtect(b, c), st, ctx, pr).0)
    decreases |st.ticks|, Size(b) + Size(c), 2
  {
    TraceGrows(b, st, ctx, pr);
    var r := Ref(b, st, ctx, pr);
    var started := r.0.(trace := r.0.trace + [c]);
    TraceGrows(c, started, ctx, pr);
    assert Grows(r.0, started) by { assert started.trace[..|r.0.trace|] == r.0.trace; }
    GrowsOn(st, r.0, started);
    GrowsOn(st, started, Ref(c, started, ctx, pr).0);
  }

  // ---- the stacks ----

  /** An entry of specpdl: the old value of a variable (None if it was unbound), or the form of an
      unwind-protect. */
  datatype Record = Binding(x: Name, oldValue: Option<Value>) | Cleanup(form: Expr)

  /** A catch or condition-case in progress and what it saved. */
  datatype CatchTag = CatchTag(tag: Value, pdlcount: nat, handlers: seq<Handler>, backlist: seq<Expr>, depth: nat)

  /** A condition-case in progress; `catch` is its place in the catch list. */
  datatype Handler = Handler(clauses: Clauses, catch: nat)

  function SetBack(vars: map<Name, Value>, x: Name, oldValue: Option<Value>): map<Name, Value> {
    if oldValue.Some? then vars[x := oldValue.value] else vars - {x}
  }

  function Lookup(vars: map<Name, Value>, x: Name): Option<Value> {
    if x in vars then Some(vars[x]) else None
  }

  function TagOf(f: Frame): Value {
    if f.CatchFrame? then f.tag else Nil
  }

  ghost function HandlersOf(ctx: seq<Frame>): (hs: seq<Handler>)
    ensures forall i :: 0 <= i < |hs| ==> hs[i].catch < |ctx|
  {
    if ctx == [] then []
    else
      var hs := HandlersOf(ctx[..|ctx| - 1]);
      var f := ctx[|ctx| - 1];
      if f.HandlerFrame? then hs + [Handler(f.clauses, |ctx| - 1)] else hs
  }

  /** The catch list stands for the frames `ctx`, over a binding stack of `n` entries. */
  ghost predicate Stacks(ctx: seq<Frame>, catches: seq<CatchTag>, n: nat) {
    && Based(ctx) && |catches| == |ctx|
    && (forall i :: 0 <= i < |ctx| ==>
          catches[i].tag == TagOf(ctx[i]) && catches[i].handlers == HandlersOf(ctx[..i]) && catches[i].pdlcount <= n)
    && (forall i, j :: 0 <= i < j < |ctx| ==> catches[i].pdlcount <= catches[j].pdlcount)
  }

  lemma StacksOver(ctx: seq<Frame>, catches: seq<CatchTag>, n: nat, m: nat)
    requires Stacks(ctx, catches, n) && (n <= m || catches[|ctx| - 1].pdlcount <= m)
    ensures Stacks(ctx, catches, m)
  {
  }

  lemma PopStacks(ctx: seq<Frame>, catches: seq<CatchTag>, n: nat)
    requires Stacks(ctx, catches, n) && |ctx| > 1
    ensures var k := |ctx| - 1; Stacks(ctx[..k], catches[..k], catches[k].pdlcount)
  {
    var k := |ctx| - 1;
    assert forall i :: 0 <= i < k ==> ctx[..k][..i] == ctx[..i];
  }

  ghost function PdlSize(pdl: seq<Record>): nat {
    if pdl == [] then 0
    else
      var rec := pdl[|pdl| - 1];
      PdlSize(pdl[..|pdl| - 1]) + if rec.Cleanup? then 1 + Size(rec.form) else 0
  }

  // ---- unwinding, as a function ----

  /** The records above `count` undone, last first, until a cleanup form exits: the state, the exit
      if there is one, and how many records are left. */
  ghost function Unbind(st: St, pdl: seq<Record>, count: nat, ctx: seq<Frame>, pr: Program): (r: (St, Out, nat))
    requires Based(ctx)
    ensures Less(st, r.0) && Fits(ctx, r.1) && r.2 <= |pdl| && (count <= |pdl| ==> count <= r.2)
    ensures r.1.Exit? ==> r.2 < |pdl|
    ensures r.1.Normal? && count <= |pdl| ==> r.2 == count
    decreases |pdl|
  {
    if |pdl| <= count then (st, Normal(Nil), |pdl|)
    else
      var rest, rec := pdl[..|pdl| - 1], pdl[|pdl| - 1];
      match rec
      case Binding(x, v) => Unbind(st.(vars := SetBack(st.vars, x, v)), rest, count, ctx, pr)
      case Cleanup(c) =>
        var s := Cleaned((st, Normal(Nil)), c, ctx, pr);
        if s.1.Exit? then (s.0, s.1, |rest|) else Unbind(s.0, rest, count, ctx, pr)
  }

  /** Where a piece of evaluation leaves the machine: a value, or a jump that has landed; `n` records
      and `k` catches are left. */
  datatype Arrival = Result(v: Value) | Jump(level: nat, p: Payload)
  datatype Final = Final(st: St, n: nat, k: nat, out: Arrival)

  /** On the way to the catch at `level`: each catch on the way has its records undone while it is still
      in force, and an exit from a cleanup form is a new destination. */
  ghost function Land(st: St, pdl: seq<Record>, catches: seq<CatchTag>, ctx: seq<Frame>, level: nat, p: Payload,
                      pr: Program): (f: Final)
    requires Stacks(ctx, catches, |pdl|) && Fits(ctx, Exit(level, p))
    ensures Less(st, f.st) && f.out.Jump? && f.k == f.out.level < |ctx| && f.n == catches[f.k].pdlcount
    ensures Fits(ctx, Exit(f.out.level, f.out.p))
    decreases |pdl| + |ctx|
  {
    hide Unbind, HandlersOf, TagOf;
    var k := |ctx| - 1;
    var count := catches[k].pdlcount;
    var u := Unbind(st, pdl, count, ctx, pr);
    StacksOver(ctx, catches, |pdl|, u.2);
    if u.1.Exit? then Land(u.0, pdl[..u.2], catches, ctx, u.1.level, u.1.p, pr)
    else if level == k then Final(u.0, count, k, Jump(level, p))
    else
      PopStacks(ctx, catches, |pdl|);
      Land(u.0, pdl[..count], catches[..k], ctx[..k], level, p, pr)
  }

  /** Evaluation ended with `r`; now back to `count` records, or off to the catch. */
  ghost function Settle(r: (St, Out), pdl: seq<Record>, count: nat, catches: seq<CatchTag>, ctx: seq<Frame>,
                        pr: Program): (f: Final)
    requires Stacks(ctx, catches, count) && count <= |pdl| && Fits(ctx, r.1)
    ensures Less(r.0, f.st) && f.n <= |pdl| && f.k <= |ctx|
    ensures if f.out.Jump? then f.k == f.out.level < |ctx| && f.n == catches[f.k].pdlcount && Fits(ctx, Exit(f.out.level, f.out.p))
            else f.k == |ctx| && f.n == count
    ensures r.1.Exit? ==> f.out.Jump?
  {
    if r.1.Exit? then Land(r.0, pdl, catches, ctx, r.1.level, r.1.p, pr)
    else
      var u := Unbind(r.0, pdl, count, ctx, pr);
      if u.1.Exit? then Land(u.0, pdl[..u.2], catches, ctx, u.1.level, u.1.p, pr)
      else Final(u.0, count, |ctx|, Result(r.1.v))
  }

  /** A binding is undone on the way out, whichever way that is. */
  lemma SettleBinding(r: (St, Out), pdl: seq<Record>, x: Name, v: Option<Value>, count: nat,
                      catches: seq<CatchTag>, ctx: seq<Frame>, pr: Program)
    requires Stacks(ctx, catches, count) && count <= |pdl| && Fits(ctx, r.1)
    ensures Settle(r, pdl + [Binding(x, v)], count, catches, ctx, pr) ==
            Settle((r.0.(vars := SetBack(r.0.vars, x, v)), r.1), pdl, count, catches, ctx, pr)
  {
    var more := pdl + [Binding(x, v)];
    assert more[..|pdl|] == pdl;
    var st := r.0.(vars := SetBack(r.0.vars, x, v));
    assert Unbind(r.0, more, count, ctx, pr) == Unbind(st, pdl, count, ctx, pr);
    if r.1.Exit? {
      var c := catches[|ctx| - 1].pdlcount;
      assert Unbind(r.0, more, c, ctx, pr) == Unbind(st, pdl, c, ctx, pr);
      var u := Unbind(st, pdl, c, ctx, pr);
      assert more[..u.2] == pdl[..u.2] && more[..c] == pdl[..c];
    } else {
      var u := Unbind(st, pdl, count, ctx, pr);
      assert more[..u.2] == pdl[..u.2];
    }
  }

  /** A cleanup form is run once on the way out, whichever way that is. */
  lemma SettleCleanup(r: (St, Out), pdl: seq<Record>, c: Expr, count: nat,
                      catches: seq<CatchTag>, ctx: seq<Frame>, pr: Program)
    requires Stacks(ctx, catches, count) && count <= |pdl| && Fits(ctx, r.1)
    ensures Settle(r, pdl + [Cleanup(c)], count, catches, ctx, pr) == Settle(Cleaned(r, c, ctx, pr), pdl, count, catches, ctx, pr)
  {
    var more := pdl + [Cleanup(c)];
    assert more[..|pdl|] == pdl;
    var s := Cleaned((r.0, Normal(Nil)), c, ctx, pr);
    var target := if r.1.Exit? then catches[|ctx| - 1].pdlcount else count;
    if s.1.Exit? {
      assert Unbind(r.0, more, target, ctx, pr) == (s.0, s.1, |pdl|);
    } else {
      assert Unbind(r.0, more, target, ctx, pr) == Unbind(s.0, pdl, target, ctx, pr);
      var u := Unbind(s.0, pdl, target, ctx, pr);
      assert more[..u.2] == pdl[..u.2] && more[..target] == pdl[..target];
    }
  }

  /** An exit to the innermost catch has landed; any other one goes on as if it were not there. */
  lemma SettleCatch(r: (St, Out), pdl: seq<Record>, c: CatchTag, catches: seq<CatchTag>, f: Frame, ctx: seq<Frame>,
                    pr: Program)
    requires Stacks(ctx, catches, |pdl|) && Stacks(ctx + [f], catches + [c], |pdl|) && c.pdlcount == |pdl|
    requires Fits(ctx + [f], r.1)
    ensures var g := Settle(r, pdl, |pdl|, catches + [c], ctx + [f], pr);
            if r.1.Exit? && r.1.level < |ctx| then Fits(ctx, r.1) && g == Settle(r, pdl, |pdl|, catches, ctx, pr)
            else g == Final(r.0, |pdl|, if r.1.Exit? then |ctx| else |ctx| + 1, if r.1.Exit? then Jump(r.1.level, r.1.p) else Result(r.1.v))
  {
    assert (ctx + [f])[..|ctx|] == ctx && (catches + [c])[..|ctx|] == catches && pdl[..|pdl|] == pdl;
  }

  /** Undoing the bindings of `ps`, last first, gives every variable its old value back. */
  ghost function Records(vars: map<Name, Value>, ps: Pairs): (rs: seq<Record>)
    ensures |rs| == |ps| && forall i :: 0 <= i < |rs| ==> rs[i].Binding?
  {
    if ps == [] then []
    else
      var n := |ps| - 1;
      Records(vars, ps[..n]) + [Binding(ps[n].0, Lookup(BindVars(vars, ps[..n]), ps[n].0))]
  }

  lemma {:induction false} SettleBindings(r: (St, Out), pdl: seq<Record>, vars: map<Name, Value>, ps: Pairs, count: nat,
                                          catches: seq<CatchTag>, ctx: seq<Frame>, pr: Program)
    requires Stacks(ctx, catches, count) && count <= |pdl| && Fits(ctx, r.1)
    decreases |ps|
    ensures Settle(r, pdl + Records(vars, ps), count, catches, ctx, pr) ==
            Settle((r.0.(vars := Restored(r.0.vars, vars, Bound(ps))), r.1), pdl, count, catches, ctx, pr)
  {
    if ps == [] {
      assert pdl + Records(vars, ps) == pdl;
      assert Restored(r.0.vars, vars, Bound(ps)) == r.0.vars;
    } else {
      var n := |ps| - 1;
      var x := ps[n].0;
      var v := Lookup(BindVars(vars, ps[..n]), x);
      assert pdl + Records(vars, ps) == pdl + Records(vars, ps[..n]) + [Binding(x, v)];
      SettleBinding(r, pdl + Records(vars, ps[..n]), x, v, count, catches, ctx, pr);
      var r' := (r.0.(vars := SetBack(r.0.vars, x, v)), r.1);
      SettleBindings(r', pdl, vars, ps[..n], count, catches, ctx, pr);
      RestoredLast(r.0.vars, vars, ps);
    }
  }

  lemma {:induction false} BindVarsElsewhere(vars: map<Name, Value>, ps: Pairs, x: Name)
    requires x !in Bound(ps)
    ensures Lookup(BindVars(vars, ps), x) == Lookup(vars, x)
  {
    if ps != [] {
      var n := |ps| - 1;
      assert ps[n].0 in Bound(ps);
      forall y | y in Bound(ps[..n]) ensures y in Bound(ps) {
        var i :| 0 <= i < n && ps[..n][i].0 == y;
        assert ps[i].0 == y;
      }
      BindVarsElsewhere(vars, ps[..n], x);
    }
  }

  lemma BoundLast(ps: Pairs)
    requires ps != []
    ensures Bound(ps) == Bound(ps[..|ps| - 1]) + {ps[|ps| - 1].0}
  {
    var n := |ps| - 1;
    assert forall i :: 0 <= i < n ==> ps[..n][i] == ps[i];
    forall y | y in Bound(ps) ensures y in Bound(ps[..n]) + {ps[n].0} {
      var i :| 0 <= i < |ps| && ps[i].0 == y;
      if i < n { assert ps[..n][i].0 == y; }
    }
    forall y | y in Bound(ps[..n]) ensures y in Bound(ps) {
      var i :| 0 <= i < n && ps[..n][i].0 == y;
      assert ps[i].0 == y;
    }
    assert ps[n].0 in Bound(ps);
  }

  lemma RestoredLast(now: map<Name, Value>, vars: map<Name, Value>, ps: Pairs)
    requires ps != []
    ensures var n := |ps| - 1; var x := ps[n].0;
            Restored(SetBack(now, x, Lookup(BindVars(vars, ps[..n]), x)), vars, Bound(ps[..n])) == Restored(now, vars, Bound(ps))
  {
    hide Bound, BindVars;
    var n := |ps| - 1;
    var x := ps[n].0;
    BoundLast(ps);
    if x !in Bound(ps[..n]) {
      BindVarsElsewhere(vars, ps[..n], x);
    }
  }

  lemma PdlPrefix(pdl: seq<Record>, n: nat)
    requires n <= |pdl|
    ensures PdlSize(pdl[..n]) <= PdlSize(pdl)
    decreases |pdl|
  {
    if n < |pdl| {
      PdlPrefix(pdl[..|pdl| - 1], n);
      assert pdl[..|pdl| - 1][..n] == pdl[..n];
    } else {
      assert pdl[..n] == pdl;
    }
  }

  lemma PdlPush(pdl: seq<Record>, rec: Record)
    ensures PdlSize(pdl + [rec]) == PdlSize(pdl) + if rec.Cleanup? then 1 + Size(rec.form) else 0
  {
    assert (pdl + [rec])[..|pdl|] == pdl;
  }

  /** The innermost condition-case on the handler list. */
  lemma {:induction false} LastHandler(ctx: seq<Frame>, conditions: seq<Name>)
    ensures HandlersOf(ctx) == [] ==> FindHandler(ctx, conditions) == -1
    ensures HandlersOf(ctx) != [] ==>
              var n := |HandlersOf(ctx)| - 1; var h := HandlersOf(ctx)[n];
              && ctx[h.catch] == HandlerFrame(h.clauses) && HandlersOf(ctx)[..n] == HandlersOf(ctx[..h.catch])
              && FindHandler(ctx, conditions) ==
                 if Handles(ctx[h.catch], conditions) then h.catch else FindHandler(ctx[..h.catch], conditions)
  {
    if ctx != [] {
      var rest := ctx[..|ctx| - 1];
      LastHandler(rest, conditions);
      if ctx[|ctx| - 1].HandlerFrame? {
        assert HandlersOf(ctx)[..|HandlersOf(ctx)| - 1] == HandlersOf(rest);
      } else if HandlersOf(rest) != [] {
        var h := HandlersOf(rest)[|HandlersOf(rest)| - 1];
        assert rest[..h.catch] == ctx[..h.catch];
      }
    }
  }

  /** One step of unbind_to over an unwind-protect's record, in terms of running its form. */
  lemma CleanupStep(st: St, rest: seq<Record>, c: Expr, count: nat, catches: seq<CatchTag>, ctx: seq<Frame>,
                    pr: Program)
    requires Stacks(ctx, catches, count) && count <= |rest|
    ensures Stacks(ctx, catches, |rest|)
    ensures var s := Ref(c, st.(trace := st.trace + [c]), ctx, pr);
            var f := Settle(s, rest, |rest|, catches, ctx, pr);
            var whole := Settle((st, Normal(Nil)), rest + [Cleanup(c)], count, catches, ctx, pr);
            if f.out.Jump? then f == whole
            else f.n == |rest| && Settle((f.st, Normal(Nil)), rest, count, catches, ctx, pr) == whole
  {
    StacksOver(ctx, catches, count, |rest|);
    SettleCleanup((st, Normal(Nil)), rest, c, count, catches, ctx, pr);
  }

  // ---- the evaluator ----

  /** The stacks of the evaluator at one moment. */
  datatype Dump = Dump(pdl: seq<Record>, catches: seq<CatchTag>, ctx: seq<Frame>, handlers: seq<Handler>,
                       backlist: seq<Expr>, depth: nat)

  ghost predicate Sound(d: Dump) {
    Stacks(d.ctx, d.catches, |d.pdl|) && d.handlers == HandlersOf(d.ctx)
  }

  /** The stacks once `d` has arrived at `f`.  With a value, all but the binding stack are as they were;
      after a jump, every stack is as it was when the catch it has landed at was set up. */
  ghost function Left(d: Dump, f: Final): Dump
    requires f.n <= |d.pdl| && (f.out.Jump? ==> f.k < |d.catches| && f.k < |d.ctx|)
  {
    if f.out.Result? then d.(pdl := d.pdl[..f.n])
    else
      var c := d.catches[f.k];
      Dump(d.pdl[..f.n], d.catches[..f.k], d.ctx[..f.k], c.handlers, c.backlist, c.depth)
  }

  /** Where evaluation goes from the stacks `d`. */
  ghost function From(d: Dump, r: (St, Out), count: nat, pr: Program): (f: Final)
    requires Sound(d) && Stacks(d.ctx, d.catches, count) && count <= |d.pdl| && Fits(d.ctx, r.1)
    ensures f.n <= |d.pdl| && |d.catches| == |d.ctx| && (f.out.Jump? ==> f.k < |d.catches|)
    ensures f.out.Result? ==> f.n == count
    ensures r.1.Exit? ==> f.out.Jump?
    ensures Less(r.0, f.st)
  {
    Settle(r, d.pdl, count, d.catches, d.ctx, pr)
  }

  lemma LeftPrefix(d: Dump, n: nat, f: Final)
    requires n <= |d.pdl| && f.n <= n && (f.out.Jump? ==> f.k < |d.catches| && f.k < |d.ctx|)
    ensures Left(d.(pdl := d.pdl[..n]), f) == Left(d, f)
  {
    assert d.pdl[..n][..f.n] == d.pdl[..f.n];
  }

  lemma FromDone(d: Dump, st: St, v: Value, count: nat, pr: Program)
    requires Sound(d) && |d.pdl| == count
    ensures From(d, (st, Normal(v)), count, pr) == Final(st, count, |d.ctx|, Result(v))
  {
  }

  /** The stacks `e` are what is left of `d`. */
  ghost predicate Shorter(e: Dump, d: Dump) {
    && |e.pdl| <= |d.pdl| && |e.catches| == |e.ctx| <= |d.catches| == |d.ctx|
    && e.pdl == d.pdl[..|e.pdl|] && e.catches == d.catches[..|e.catches|] && e.ctx == d.ctx[..|e.ctx|]
  }

  /** Where a jump leads does not depend on catches already passed. */
  lemma LeftShort(d: Dump, e: Dump, f: Final)
    requires Shorter(e, d) && f.out.Jump? && f.n <= |e.pdl| && f.k < |e.catches|
    ensures Left(e, f) == Left(d, f)
  {
    assert e.pdl[..f.n] == d.pdl[..f.n] && e.ctx[..f.k] == d.ctx[..f.k] && e.catches[..f.k] == d.catches[..f.k];
  }

  /** The stacks without the innermost catch. */
  ghost function Popped(d: Dump): Dump
    requires |d.ctx| > 0 && Sound(d)
  {
    var k := |d.ctx| - 1;
    var c := d.catches[k];
    Dump(d.pdl[..c.pdlcount], d.catches[..k], d.ctx[..k], c.handlers, d.backlist, d.depth)
  }

  lemma PoppedShort(d: Dump, e: Dump)
    requires Shorter(e, d) && Sound(e)
    ensures Shorter(Popped(e), d) && |Popped(e).ctx| == |e.ctx| - 1
    ensures Popped(e).handlers == d.catches[|e.ctx| - 1].handlers
  {
    var k := |e.ctx| - 1;
    assert e.catches[k] == d.catches[k];
    assert e.catches[..k] == d.catches[..k] && e.ctx[..k] == d.ctx[..k];
    assert forall m :: 0 <= m <= |e.pdl| ==> e.pdl[..m] == d.pdl[..m];
  }

  /** On the way to the catch at `c` with the stacks `d`, or just there; `whole` is where this ends. */
  ghost predicate Landing(d: Dump, st: St, c: nat, p: Payload, whole: Final, pr: Program) {
    && c <= |d.ctx|
    && if c == |d.ctx| then whole == Final(st, |d.pdl|, c, Jump(c, p))
       else Sound(d) && Fits(d.ctx, Exit(c, p)) && From(d, (st, Exit(c, p)), |d.pdl|, pr) == whole
  }

  lemma LandHere(st: St, pdl: seq<Record>, catches: seq<CatchTag>, ctx: seq<Frame>, p: Payload, u: (St, Out, nat),
                 pr: Program)
    requires Stacks(ctx, catches, |pdl|) && Fits(ctx, Exit(|ctx| - 1, p))
    requires u == Unbind(st, pdl, catches[|ctx| - 1].pdlcount, ctx, pr) && u.1.Normal?
    ensures var k := |ctx| - 1;
            Land(st, pdl, catches, ctx, k, p, pr) == Final(u.0, catches[k].pdlcount, k, Jump(k, p))
  {
  }

  lemma StacksWhole(d: Dump)
    requires Sound(d)
    ensures Stacks(d.ctx, d.catches, |d.pdl|) && |d.catches| == |d.ctx| > 0
  {
  }

  /** A cleanup form exits on the way: that is the new destination. */
  lemma LandDiverted(d: Dump, st: St, c: nat, p: Payload, count: nat, u: (St, Out, nat), pr: Program)
    requires Sound(d) && Fits(d.ctx, Exit(c, p)) && count == d.catches[|d.ctx| - 1].pdlcount <= |d.pdl|
    requires Stacks(d.ctx, d.catches, count) && u == Unbind(st, d.pdl, count, d.ctx, pr) && u.1.Exit?
    ensures From(d, (st, Normal(Nil)), count, pr) == From(d, (st, Exit(c, p)), |d.pdl|, pr)
    ensures From(d, (st, Normal(Nil)), count, pr).out.Jump?
  {
    StacksOver(d.ctx, d.catches, count, u.2);
    var f := Land(u.0, d.pdl[..u.2], d.catches, d.ctx, u.1.level, u.1.p, pr);
    assert From(d, (st, Normal(Nil)), count, pr) == f;
    assert From(d, (st, Exit(c, p)), |d.pdl|, pr) == Land(st, d.pdl, d.catches, d.ctx, c, p, pr) == f;
  }

  lemma PoppedSound(d: Dump, c: nat, p: Payload)
    requires Sound(d) && Fits(d.ctx, Exit(c, p)) && c < |d.ctx| - 1
    ensures Sound(Popped(d)) && Fits(Popped(d).ctx, Exit(c, p))
    ensures |Popped(d).pdl| == d.catches[|d.ctx| - 1].pdlcount
  {
    hide HandlersOf, FirstMatch, Length;
    PopStacks(d.ctx, d.catches, |d.pdl|);
  }

  lemma LandOn(st: St, pdl: seq<Record>, catches: seq<CatchTag>, ctx: seq<Frame>, c: nat, p: Payload, u: (St, Out,
               nat), pr: Program)
    requires Stacks(ctx, catches, |pdl|) && Fits(ctx, Exit(c, p)) && c < |ctx| - 1
    requires u == Unbind(st, pdl, catches[|ctx| - 1].pdlcount, ctx, pr) && u.1.Normal?
    ensures var k := |ctx| - 1; var count := catches[k].pdlcount;
            && count <= |pdl| && Stacks(ctx[..k], catches[..k], count) && Fits(ctx[..k], Exit(c, p))
            && Land(st, pdl, catches, ctx, c, p, pr) == Land(u.0, pdl[..count], catches[..k], ctx[..k], c, p, pr)
  {
    PopStacks(ctx, catches, |pdl|);
  }

  /** No cleanup form exits: one catch less, or there. */
  lemma LandPassed(d: Dump, st: St, c: nat, p: Payload, count: nat, u: (St, Out, nat), pr: Program)
    requires Sound(d) && Fits(d.ctx, Exit(c, p)) && count == d.catches[|d.ctx| - 1].pdlcount <= |d.pdl|
    requires Stacks(d.ctx, d.catches, count) && u == Unbind(st, d.pdl, count, d.ctx, pr) && u.1.Normal?
    ensures From(d, (st, Normal(Nil)), count, pr) == Final(u.0, count, |d.ctx|, Result(Nil))
    ensures Landing(Popped(d), u.0, c, p, From(d, (st, Exit(c, p)), |d.pdl|, pr), pr)
  {
    hide Stacks, HandlersOf, Unbind, Land;
    var k := |d.ctx| - 1;
    StacksWhole(d);
    if c < k {
      PoppedSound(d, c, p);
      LandOn(st, d.pdl, d.catches, d.ctx, c, p, u, pr);
    } else {
      LandHere(st, d.pdl, d.catches, d.ctx, p, u, pr);
      assert |Popped(d).pdl| == count && |Popped(d).ctx| == k;
    }
  }

  lemma LandStep(d: Dump, st: St, c: nat, p: Payload, pr: Program)
    requires Sound(d) && Fits(d.ctx, Exit(c, p))
    ensures var count := d.catches[|d.ctx| - 1].pdlcount;
            && count <= |d.pdl| && Stacks(d.ctx, d.catches, count)
            && var f := From(d, (st, Normal(Nil)), count, pr);
               var whole := From(d, (st, Exit(c, p)), |d.pdl|, pr);
               if f.out.Jump? then f == whole else Landing(Popped(d), f.st, c, p, whole, pr)
  {
    var count := d.catches[|d.ctx| - 1].pdlcount;
    StacksOver(d.ctx, d.catches, |d.pdl|, count);
    var u := Unbind(st, d.pdl, count, d.ctx, pr);
    if u.1.Exit? {
      LandDiverted(d, st, c, p, count, u, pr);
    } else {
      LandPassed(d, st, c, p, count, u, pr);
    }
  }

  /** One round of unbind_catch, on the stacks `d` that are left of `d0`. */
  lemma UnbindRound(d0: Dump, d: Dump, st: St, c: nat, p: Payload, goal: Final, pr: Program)
    requires Shorter(d, d0) && c < |d.ctx| && Landing(d, st, c, p, goal, pr)
    ensures PdlSize(d.pdl) <= PdlSize(d0.pdl)
    ensures var count := d.catches[|d.ctx| - 1].pdlcount;
            && count <= |d.pdl| && Stacks(d.ctx, d.catches, count)
            && var f := From(d, (st, Normal(Nil)), count, pr);
               if f.out.Jump? then f == goal && f.k < |d0.catches| && Left(d, f) == Left(d0, f)
               else
                 && Shorter(Popped(d), d0) && Landing(Popped(d), f.st, c, p, goal, pr)
                 && |Popped(d).catches| == |d.catches| - 1
                 && (|d.ctx| - 1 == c ==> Popped(d).handlers == d0.catches[c].handlers)
  {
    LandStep(d, st, c, p, pr);
    PoppedShort(d0, d);
    PdlPrefix(d0.pdl, |d.pdl|);
    LeftShort(d0, d, goal);
  }

  /** The value given to unbind_to's caller does not matter to it. */
  lemma FromValue(d: Dump, st: St, v: Value, count: nat, pr: Program)
    requires Sound(d) && Stacks(d.ctx, d.catches, count) && count <= |d.pdl|
    ensures var f := From(d, (st, Normal(Nil)), count, pr);
            From(d, (st, Normal(v)), count, pr) == if f.out.Jump? then f else f.(out := Result(v))
  {
  }

  /** An exit does not care where unbind_to would have stopped. */
  lemma FromExit(d: Dump, r: (St, Out), count: nat, pr: Program)
    requires Sound(d) && Stacks(d.ctx, d.catches, count) && count <= |d.pdl| && r.1.Exit? && Fits(d.ctx, r.1)
    ensures From(d, r, count, pr) == From(d, r, |d.pdl|, pr)
  {
  }

  lemma RestoredOne(now: map<Name, Value>, vars: map<Name, Value>, x: Name)
    ensures SetBack(now, x, Lookup(vars, x)) == Restored(now, vars, {x})
  {
  }

  lemma RestoredSelf(vars: map<Name, Value>, ps: Pairs)
    ensures Restored(BindVars(vars, ps), vars, Bound(ps)) == vars
  {
    var r := Restored(BindVars(vars, ps), vars, Bound(ps));
    forall x
      ensures Lookup(r, x) == Lookup(vars, x)
    {
      if x !in Bound(ps) {
        BindVarsElsewhere(vars, ps, x);
      }
    }
    assert forall x :: x in r <==> x in vars by {
      forall x
        ensures x in r <==> x in vars
      {
        assert Lookup(r, x) == Lookup(vars, x);
      }
    }
    forall x | x in r ensures r[x] == vars[x] { assert Lookup(r, x) == Lookup(vars, x); }
  }

  lemma PdlRecords(pdl: seq<Record>, more: seq<Record>)
    requires forall i :: 0 <= i < |more| ==> more[i].Binding?
    ensures PdlSize(pdl + more) == PdlSize(pdl)
  {
    if more == [] {
      assert pdl + more == pdl;
    } else {
      var n := |more| - 1;
      PdlRecords(pdl, more[..n]);
      PdlPush(pdl + more[..n], more[n]);
      assert pdl + more[..n] + [more[n]] == pdl + more;
    }
  }

  /** The stacks with the bindings of `ps` on top. */
  ghost function WithBindings(d: Dump, vars: map<Name, Value>, ps: Pairs): Dump {
    d.(pdl := d.pdl + Records(vars, ps))
  }

  /** Evaluation inside bindings, seen from outside. */
  lemma WithinStep(d: Dump, vars: map<Name, Value>, ps: Pairs, r: (St, Out), pr: Program)
    requires Sound(d) && Fits(d.ctx, r.1)
    ensures var e := WithBindings(d, vars, ps); var s := (r.0.(vars := Restored(r.0.vars, vars, Bound(ps))), r.1);
            && Sound(e) && Stacks(e.ctx, e.catches, |d.pdl|) && PdlSize(e.pdl) == PdlSize(d.pdl)
            && var f := From(d, s, |d.pdl|, pr); From(e, r, |d.pdl|, pr) == f && Left(e, f) == Left(d, f)
  {
    var e := WithBindings(d, vars, ps);
    SettleBindings(r, d.pdl, vars, ps, |d.pdl|, d.catches, d.ctx, pr);
    StacksOver(d.ctx, d.catches, |d.pdl|, |e.pdl|);
    PdlRecords(d.pdl, Records(vars, ps));
    assert e.pdl[..|d.pdl|] == d.pdl;
    LeftPrefix(e, |d.pdl|, From(e, r, |d.pdl|, pr));
  }

  /** One variable of a let*. */
  lemma LetXStep(d: Dump, st: St, left: Binds, body: Expr, count: nat, pr: Program)
    requires Sound(d) && Stacks(d.ctx, d.catches, count) && count <= |d.pdl| && left.Bind?
    ensures var o := Ref(left.init, st, d.ctx, pr);
            var whole := From(d, RefLetX(left, body, st, d.ctx, pr), count, pr);
            if o.1.Exit? then From(d, o, |d.pdl|, pr) == whole
            else
              var e := d.(pdl := d.pdl + [Binding(left.x, Lookup(o.0.vars, left.x))]);
              && From(d, o, |d.pdl|, pr) == Final(o.0, |d.pdl|, |d.ctx|, Result(o.1.v))
              && Sound(e) && PdlSize(e.pdl) == PdlSize(d.pdl)
              && From(e, RefLetX(left.rest, body, o.0.(vars := o.0.vars[left.x := o.1.v]), d.ctx, pr), count, pr) == whole
  {
    var o := Ref(left.init, st, d.ctx, pr);
    if o.1.Exit? {
      FromExit(d, o, count, pr);
    } else {
      var x := left.x;
      var inner := RefLetX(left.rest, body, o.0.(vars := o.0.vars[x := o.1.v]), d.ctx, pr);
      FromDone(d, o.0, o.1.v, |d.pdl|, pr);
      SettleBinding(inner, d.pdl, x, Lookup(o.0.vars, x), count, d.catches, d.ctx, pr);
      RestoredOne(inner.0.vars, o.0.vars, x);
      StacksOver(d.ctx, d.catches, |d.pdl|, |d.pdl| + 1);
      PdlPush(d.pdl, Binding(x, Lookup(o.0.vars, x)));
    }
  }

  /** A protected body, seen from outside. */
  lemma ProtectStep(d: Dump, c: Expr, r: (St, Out), pr: Program)
    requires Sound(d) && Fits(d.ctx, r.1)
    ensures var e := d.(pdl := d.pdl + [Cleanup(c)]);
            && Sound(e) && Stacks(e.ctx, e.catches, |d.pdl|) && PdlSize(e.pdl) == PdlSize(d.pdl) + 1 + Size(c)
            && var f := From(d, Cleaned(r, c, d.ctx, pr), |d.pdl|, pr); From(e, r, |d.pdl|, pr) == f && Left(e, f) == Left(d, f)
  {
    var e := d.(pdl := d.pdl + [Cleanup(c)]);
    SettleCleanup(r, d.pdl, c, |d.pdl|, d.catches, d.ctx, pr);
    StacksOver(d.ctx, d.catches, |d.pdl|, |e.pdl|);
    PdlPush(d.pdl, Cleanup(c));
    assert e.pdl[..|d.pdl|] == d.pdl;
    LeftPrefix(e, |d.pdl|, From(e, r, |d.pdl|, pr));
  }

  /** The stacks with a catch or condition-case just set up. */
  ghost function SetUpAt(d: Dump, f: Frame): Dump {
    var hs := if f.HandlerFrame? then d.handlers + [Handler(f.clauses, |d.ctx|)] else d.handlers;
    Dump(d.pdl, d.catches + [CatchTag(TagOf(f), |d.pdl|, d.handlers, d.backlist, d.depth)], d.ctx + [f], hs, d.backlist, d.depth)
  }

  lemma PushStacks(ctx: seq<Frame>, catches: seq<CatchTag>, n: nat, f: Frame, c: CatchTag)
    requires Stacks(ctx, catches, n) && c.tag == TagOf(f) && c.handlers == HandlersOf(ctx) && c.pdlcount == n
    ensures Stacks(ctx + [f], catches + [c], n)
  {
    var k := |ctx|;
    var xs, cs := ctx + [f], catches + [c];
    forall i | 0 <= i <= k
      ensures cs[i].tag == TagOf(xs[i]) && cs[i].handlers == HandlersOf(xs[..i]) && cs[i].pdlcount <= n
    {
      assert xs[..i] == ctx[..i];
      if i < k {
        assert cs[i] == catches[i] && xs[i] == ctx[i];
      } else {
        assert cs[i] == c && xs[i] == f && ctx[..k] == ctx;
      }
    }
  }

  lemma CatchSound(d: Dump, f: Frame)
    requires Sound(d)
    ensures Sound(SetUpAt(d, f)) && Shorter(d, SetUpAt(d, f))
  {
    var e := SetUpAt(d, f);
    PushStacks(d.ctx, d.catches, |d.pdl|, f, e.catches[|d.ctx|]);
    assert e.ctx[..|d.ctx|] == d.ctx && e.catches[..|d.ctx|] == d.catches && d.pdl == d.pdl[..|d.pdl|];
  }

  /** A body with a catch around it, seen from outside. */
  lemma CatchStep(d: Dump, f: Frame, r: (St, Out), pr: Program)
    requires Sound(d) && Fits(d.ctx + [f], r.1)
    ensures var e := SetUpAt(d, f);
            && Sound(e)
            && var g := From(e, r, |d.pdl|, pr);
               if r.1.Exit? && r.1.level < |d.ctx| then
                 Fits(d.ctx, r.1) && g == From(d, r, |d.pdl|, pr) && Left(e, g) == Left(d, g)
               else if r.1.Exit? then g == Final(r.0, |d.pdl|, |d.ctx|, Jump(|d.ctx|, r.1.p)) && Left(e, g) == d
               else g == Final(r.0, |d.pdl|, |e.ctx|, Result(r.1.v)) && Left(e, g) == e
  {
    var e := SetUpAt(d, f);
    CatchSound(d, f);
    SettleCatch(r, d.pdl, e.catches[|d.ctx|], d.catches, f, d.ctx, pr);
    if r.1.Exit? && r.1.level < |d.ctx| {
      LeftShort(e, d, From(d, r, |d.pdl|, pr));
    }
  }

  /** With nothing but the command loop's catch, an exit comes straight to it. */
  lemma TopLevelStep(d: Dump, o: (St, Out), pr: Program)
    requires d == Dump([], [CatchTag(TOP, 0, [], [], 0)], [CatchFrame(TOP)], [], [], 0) && Fits(d.ctx, o.1)
    ensures Sound(d)
    ensures o.1.Exit? ==> From(d, o, 0, pr) == Final(o.0, 0, 0, Jump(0, o.1.p)) && o.1.p.Thrown?
  {
  }
}
