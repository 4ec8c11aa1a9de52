/** What the Lisp forms do, form by form: laws of the meaning that the evaluator is proved against. */
module FormLaws {
  import opened Common
  import opened Unwind

  // ---- simple forms and control ----

  lemma QuoteGives(v: Value, st: St, ctx: seq<Frame>, pr: Program)
    requires Based(ctx)
    ensures Ref(Quote(v), st, ctx, pr) == (st, Normal(v))
  {
  }

  lemma VarGives(x: Name, st: St, ctx: seq<Frame>, pr: Program)
    requires Based(ctx)
    ensures x in st.vars ==> Ref(Var(x), st, ctx, pr) == (st, Normal(st.vars[x]))
    ensures x !in st.vars ==> Ref(Var(x), st, ctx, pr) == (st, SignalTo(ctx, pr, "void-variable", Cons(Sym(x), Nil)))
  {
  }

  /** A variable has the value last set. */
  lemma SetqThenVar(x: Name, a: Expr, st: St, ctx: seq<Frame>, pr: Program)
    requires Based(ctx) && Ref(a, st, ctx, pr).1.Normal?
    ensures var r := Ref(a, st, ctx, pr);
            var after := r.0.(vars := r.0.vars[x := r.1.v]);
            && Ref(Setq(x, a), st, ctx, pr) == (after, r.1)
            && Ref(Var(x), after, ctx, pr) == (after, r.1)
  {
  }

  lemma ThenRuns(a: Expr, b: Expr, st: St, ctx: seq<Frame>, pr: Program)
    requires Based(ctx) && Ref(a, st, ctx, pr).1.Normal?
    ensures Ref(Then(a, b), st, ctx, pr) == Ref(b, Ref(a, st, ctx, pr).0, ctx, pr)
  {
  }

  lemma IfIs(a: Expr, b: Expr, c: Expr, st: St, ctx: seq<Frame>, pr: Program)
    requires Based(ctx) && Ref(a, st, ctx, pr).1.Normal?
    ensures var r := Ref(a, st, ctx, pr);
            Ref(If(a, b, c), st, ctx, pr) == Ref(if r.1.v == Nil then c else b, r.0, ctx, pr)
  {
  }

  /** A test that is not nil leads to the one branch, nil to the other. */
  lemma IfChooses(a: Expr, b: Expr, c: Expr, st: St, ctx: seq<Frame>, pr: Program)
    requires Based(ctx) && Ref(a, st, ctx, pr).1.Normal?
    ensures var r := Ref(a, st, ctx, pr);
            && (r.1.v != Nil ==> Ref(If(a, b, c), st, ctx, pr) == Ref(Then(a, b), st, ctx, pr) == Ref(b, r.0, ctx, pr))
            && (r.1.v == Nil ==> Ref(If(a, b, c), st, ctx, pr) == Ref(Then(a, c), st, ctx, pr) == Ref(c, r.0, ctx, pr))
  {
    hide Ref;
    IfIs(a, b, c, st, ctx, pr);
    ThenRuns(a, b, st, ctx, pr);
    ThenRuns(a, c, st, ctx, pr);
  }

  lemma IfQuote(v: Value, b: Expr, c: Expr, st: St, ctx: seq<Frame>, pr: Program)
    requires Based(ctx)
    ensures v != Nil ==> Ref(If(Quote(v), b, c), st, ctx, pr) == Ref(b, st, ctx, pr)
    ensures Ref(If(Quote(Nil), b, c), st, ctx, pr) == Ref(c, st, ctx, pr)
  {
    QuoteGives(v, st, ctx, pr);
    QuoteGives(Nil, st, ctx, pr);
    IfChooses(Quote(v), b, c, st, ctx, pr);
    IfChooses(Quote(Nil), b, c, st, ctx, pr);
  }

  /** One unrolling of a loop: like an `if` whose yes-branch, unless the user quits, is the body and then the loop. */
  lemma WhileUnrolls(a: Expr, b: Expr, st: St, ctx: seq<Frame>, pr: Program)
    requires Based(ctx) && Ref(a, st, ctx, pr).1.Normal?
    ensures var r := Ref(a, st, ctx, pr);
            if r.1.v == Nil then
              Ref(While(a, b), st, ctx, pr) == Ref(If(a, b, Quote(Nil)), st, ctx, pr) == (r.0, Normal(Nil))
            else if r.0.ticks == [] then Ref(While(a, b), st, ctx, pr) == (r.0, SignalTo(ctx, pr, "quit", Nil))
            else
              var rest := r.0.(ticks := r.0.ticks[1..]);
              Ref(While(a, b), st, ctx, pr) ==
              if r.0.ticks[0] then (rest, SignalTo(ctx, pr, "quit", Nil))
              else Ref(Then(b, While(a, b)), rest, ctx, pr)
  {
    hide Ref;
    var r := Ref(a, st, ctx, pr);
    QuoteGives(Nil, r.0, ctx, pr);
    IfChooses(a, b, Quote(Nil), st, ctx, pr);
    WhileIs(a, b, st, ctx, pr);
    if r.1.v != Nil && r.0.ticks != [] && !r.0.ticks[0] {
      var rest := r.0.(ticks := r.0.ticks[1..]);
      if Ref(b, rest, ctx, pr).1.Normal? {
        ThenRuns(b, While(a, b), rest, ctx, pr);
      } else {
        ExitPassesOn(Then(b, While(a, b)), rest, ctx, pr);
      }
    }
  }

  lemma WhileIs(a: Expr, b: Expr, st: St, ctx: seq<Frame>, pr: Program)
    requires Based(ctx) && Ref(a, st, ctx, pr).1.Normal?
    ensures var r := Ref(a, st, ctx, pr);
            Ref(While(a, b), st, ctx, pr) ==
            if r.1.v == Nil then (r.0, Normal(Nil))
            else
              var q := Poll(r.0);
              if q.1 then (q.0, SignalTo(ctx, pr, "quit", Nil))
              else
                var s := Ref(b, q.0, ctx, pr);
                if s.1.Exit? then s else Ref(While(a, b), s.0, ctx, pr)
  {
  }

  /** The part of a form that is evaluated first. */
  function First(e: Expr): Option<Expr> {
    match e
    case Setq(_, a) => Some(a)
    case Then(a, _) => Some(a)
    case If(a, _, _) => Some(a)
    case While(a, _) => Some(a)
    case Catch(a, _) => Some(a)
    case Throw(a, _) => Some(a)
    case Signal(_, a) => Some(a)
    case _ => None
  }

  /** An exit there is the form's: nothing else of it is evaluated. */
  lemma ExitPassesOn(e: Expr, st: St, ctx: seq<Frame>, pr: Program)
    requires Based(ctx) && First(e).Some? && Ref(First(e).value, st, ctx, pr).1.Exit?
    ensures Ref(e, st, ctx, pr) == Ref(First(e).value, st, ctx, pr)
  {
  }

  // ---- arguments and bindings ----

  /** Arguments are evaluated from first to last, each in the state the one before has left. */
  lemma ArgsInOrder(e: Expr, rest: Args, st: St, ctx: seq<Frame>, pr: Program)
    requires Based(ctx)
    ensures RefArgs(NoArgs, st, ctx, pr) == (st, Normal(Nil), [])
    ensures var r := Ref(e, st, ctx, pr);
            var all := RefArgs(Arg(e, rest), st, ctx, pr);
            if r.1.Exit? then all.0 == r.0 && all.1 == r.1
            else
              var s := RefArgs(rest, r.0, ctx, pr);
              all.0 == s.0 && all.1 == s.1 && all.2 == [r.1.v] + s.2
  {
  }

  /** Binding: of several bindings of a variable the last one counts, and others keep their values. */
  lemma {:induction false} BoundValue(vars: map<Name, Value>, ps: Pairs, x: Name)
    ensures x !in Bound(ps) ==> Lookup(BindVars(vars, ps), x) == Lookup(vars, x)
    ensures forall i :: 0 <= i < |ps| && ps[i].0 == x && (forall j :: i < j < |ps| ==> ps[j].0 != x) ==>
              Lookup(BindVars(vars, ps), x) == Some(ps[i].1)
  {
    if x !in Bound(ps) {
      BindVarsElsewhere(vars, ps, x);
    }
    forall i | 0 <= i < |ps| && ps[i].0 == x && (forall j :: i < j < |ps| ==> ps[j].0 != x)
      ensures Lookup(BindVars(vars, ps), x) == Some(ps[i].1)
    {
      LastBinding(vars, ps, i);
    }
  }

  lemma {:induction false} LastBinding(vars: map<Name, Value>, ps: Pairs, i: nat)
    requires i < |ps| && forall j :: i < j < |ps| ==> ps[j].0 != ps[i].0
    ensures Lookup(BindVars(vars, ps), ps[i].0) == Some(ps[i].1)
  {
    var n := |ps| - 1;
    if i < n {
      assert ps[..n][i] == ps[i];
      LastBinding(vars, ps[..n], i);
    }
  }

  /** A body with bindings: it is evaluated with them made; after it they are undone, and what it did to other
      variables stays. */
  lemma WithinBindings(ps: Pairs, b: Expr, st: St, ctx: seq<Frame>, pr: Program, x: Name)
    requires Based(ctx)
    ensures var s := Ref(b, st.(vars := BindVars(st.vars, ps)), ctx, pr);
            var r := RefWithin(ps, b, st, ctx, pr);
            && r.1 == s.1 && r.0.ticks == s.0.ticks && r.0.trace == s.0.trace
            && Lookup(r.0.vars, x) ==
               if exists i :: 0 <= i < |ps| && ps[i].0 == x then Lookup(st.vars, x) else Lookup(s.0.vars, x)
  {
  }

  /** In `let` the second value does not see the first binding; in `let*` it does. */
  lemma LetAndLetX(x: Name, y: Name, v: Value, st: St, ctx: seq<Frame>, pr: Program)
    requires Based(ctx) && x in st.vars && x != y
    ensures var bs := Bind(x, Quote(v), Bind(y, Var(x), NoBinds));
            && Ref(Let(bs, Var(y)), st, ctx, pr) == (st, Normal(st.vars[x]))
            && Ref(LetX(bs, Var(y)), st, ctx, pr) == (st, Normal(v))
  {
    LetOfTwo(x, y, v, st, ctx, pr);
    LetXOfTwo(x, y, v, st, ctx, pr);
  }

  lemma SameVars(a: map<Name, Value>, b: map<Name, Value>)
    requires forall x :: Lookup(a, x) == Lookup(b, x)
    ensures a == b
  {
    forall x ensures x in a <==> x in b { assert Lookup(a, x) == Lookup(b, x); }
    forall x | x in a ensures a[x] == b[x] { assert Lookup(a, x) == Lookup(b, x); }
  }

  /** Bindings to values that are there already. */
  ghost function QuoteBinds(ps: Pairs): Binds {
    if ps == [] then NoBinds else Bind(ps[0].0, Quote(ps[0].1), QuoteBinds(ps[1..]))
  }

  lemma {:induction false} QuoteArgs(ps: Pairs, st: St, ctx: seq<Frame>, pr: Program)
    requires Based(ctx)
    ensures var r := RefArgs(Inits(QuoteBinds(ps)), st, ctx, pr);
            r.0 == st && r.1 == Normal(Nil) && Zip(Names(QuoteBinds(ps)), r.2) == ps
  {
    hide Ref;
    if ps != [] {
      var rest := Inits(QuoteBinds(ps[1..]));
      QuoteArgs(ps[1..], st, ctx, pr);
      QuoteGives(ps[0].1, st, ctx, pr);
      ArgsInOrder(Quote(ps[0].1), rest, st, ctx, pr);
      var names, values := Names(QuoteBinds(ps[1..])), RefArgs(rest, st, ctx, pr).2;
      assert Names(QuoteBinds(ps)) == [ps[0].0] + names;
      assert ([ps[0].0] + names)[1..] == names && ([ps[0].1] + values)[1..] == values;
      assert ps == [ps[0]] + ps[1..];
    }
  }

  /** A `let` of quoted values is the body with those bindings. */
  lemma LetQuotes(ps: Pairs, b: Expr, st: St, ctx: seq<Frame>, pr: Program)
    requires Based(ctx)
    ensures Ref(Let(QuoteBinds(ps), b), st, ctx, pr) == RefWithin(ps, b, st, ctx, pr)
  {
    QuoteArgs(ps, st, ctx, pr);
    LetIs(QuoteBinds(ps), b, st, ctx, pr);
  }

  lemma NamesOf(x: Name, e: Expr, rest: Binds)
    ensures Names(Bind(x, e, rest)) == [x] + Names(rest) && Inits(Bind(x, e, rest)) == Arg(e, Inits(rest))
    ensures Names(NoBinds) == [] && Inits(NoBinds) == NoArgs
  {
  }

  lemma ZipOf(x: Name, xs: seq<Name>, v: Value, vs: seq<Value>)
    ensures Zip([x] + xs, [v] + vs) == [(x, v)] + Zip(xs, vs)
    ensures Zip([], vs) == Zip(xs, []) == []
  {
    assert ([x] + xs)[1..] == xs && ([v] + vs)[1..] == vs;
  }

  lemma LetOfTwo(x: Name, y: Name, v: Value, st: St, ctx: seq<Frame>, pr: Program)
    requires Based(ctx) && x in st.vars && x != y
    ensures Ref(Let(Bind(x, Quote(v), Bind(y, Var(x), NoBinds)), Var(y)), st, ctx, pr) == (st, Normal(st.vars[x]))
  {
    hide Ref, RefArgs, RefWithin;
    var w := st.vars[x];
    var bs := Bind(x, Quote(v), Bind(y, Var(x), NoBinds));
    var last := Arg(Var(x), NoArgs);
    NamesOf(x, Quote(v), bs.rest);
    NamesOf(y, Var(x), NoBinds);
    ZipOf(x, [y], v, [w]);
    ZipOf(y, [], w, []);
    QuoteGives(v, st, ctx, pr);
    VarGives(x, st, ctx, pr);
    ArgsInOrder(Quote(v), last, st, ctx, pr);
    ArgsInOrder(Var(x), NoArgs, st, ctx, pr);
    assert RefArgs(last, st, ctx, pr).2 == [w];
    var ps: Pairs := [(x, v), (y, w)];
    assert [y] + [] == [y] && [(y, w)] + [] == [(y, w)];
    assert Names(bs) == [x] + [y] && RefArgs(Inits(bs), st, ctx, pr).2 == [v] + [w];
    assert Zip(Names(bs), [v] + [w]) == ps;
    LetIs(bs, Var(y), st, ctx, pr);
    WithinVar(ps, 1, st, ctx, pr);
  }

  lemma LetIs(bs: Binds, b: Expr, st: St, ctx: seq<Frame>, pr: Program)
    requires Based(ctx) && RefArgs(Inits(bs), st, ctx, pr).1.Normal?
    ensures var r := RefArgs(Inits(bs), st, ctx, pr);
            Ref(Let(bs, b), st, ctx, pr) == RefWithin(Zip(Names(bs), r.2), b, r.0, ctx, pr)
  {
  }

  /** A body that is just a variable bound gives its value and leaves everything as it was. */
  lemma WithinVar(ps: Pairs, i: nat, st: St, ctx: seq<Frame>, pr: Program)
    requires Based(ctx) && i < |ps| && forall j :: i < j < |ps| ==> ps[j].0 != ps[i].0
    ensures RefWithin(ps, Var(ps[i].0), st, ctx, pr) == (st, Normal(ps[i].1))
  {
    var y := ps[i].0;
    var inside := st.(vars := BindVars(st.vars, ps));
    BoundValue(st.vars, ps, y);
    VarGives(y, inside, ctx, pr);
    var r := RefWithin(ps, Var(y), st, ctx, pr);
    forall z ensures Lookup(r.0.vars, z) == Lookup(st.vars, z) {
      WithinBindings(ps, Var(y), st, ctx, pr, z);
      BoundValue(st.vars, ps, z);
    }
    SameVars(r.0.vars, st.vars);
  }

  lemma LetXOfTwo(x: Name, y: Name, v: Value, st: St, ctx: seq<Frame>, pr: Program)
    requires Based(ctx) && x != y
    ensures Ref(LetX(Bind(x, Quote(v), Bind(y, Var(x), NoBinds)), Var(y)), st, ctx, pr) == (st, Normal(v))
  {
    var one := st.(vars := st.vars[x := v]);
    var two := one.(vars := one.vars[y := v]);
    var inner := Bind(y, Var(x), NoBinds);
    LetXStarts(x, Quote(v), inner, Var(y), st, ctx, pr);
    LetXStarts(y, Var(x), NoBinds, Var(y), one, ctx, pr);
    LetXEnds(Var(y), two, ctx, pr);
    VarGives(x, one, ctx, pr);
    VarGives(y, two, ctx, pr);
    assert Restored(two.vars, one.vars, {y}) == one.vars;
    assert Restored(one.vars, st.vars, {x}) == st.vars;
  }

  /** let* makes the first binding, and is then let* of the others inside it. */
  lemma LetXStarts(x: Name, e: Expr, rest: Binds, b: Expr, st: St, ctx: seq<Frame>, pr: Program)
    requires Based(ctx) && Ref(e, st, ctx, pr).1.Normal?
    ensures var r := Ref(e, st, ctx, pr);
            var s := Ref(LetX(rest, b), r.0.(vars := r.0.vars[x := r.1.v]), ctx, pr);
            Ref(LetX(Bind(x, e, rest), b), st, ctx, pr) == (s.0.(vars := Restored(s.0.vars, r.0.vars, {x})), s.1)
  {
  }

  lemma LetXEnds(b: Expr, st: St, ctx: seq<Frame>, pr: Program)
    requires Based(ctx)
    ensures Ref(LetX(NoBinds, b), st, ctx, pr) == Ref(b, st, ctx, pr)
  {
  }

  // ---- calls ----

  function Plain(xs: seq<Name>): seq<Param> {
    seq(|xs|, k requires 0 <= k < |xs| => Param(xs[k]))
  }

  /** A lambda list as one writes it: required parameters, then optional ones, then one for the rest. */
  function LambdaList(req: seq<Name>, opt: seq<Name>, rest: Option<Name>): seq<Param> {
    Plain(req) + OptionalOf(opt) + RestOf(rest)
  }

  function OptionalOf(opt: seq<Name>): seq<Param> {
    if opt == [] then [] else [AndOptional] + Plain(opt)
  }

  function RestOf(rest: Option<Name>): seq<Param> {
    if rest.Some? then [AndRest, Param(rest.value)] else []
  }

  /** Parameter `k` gets argument `i + k`, or nil if there are not so many. */
  function Given(xs: seq<Name>, vs: seq<Value>, i: nat): (ps: Pairs) {
    seq(|xs|, k requires 0 <= k < |xs| => (xs[k], if i + k < |vs| then vs[i + k] else Nil))
  }

  /** What is left after `n` arguments. */
  function Beyond(vs: seq<Value>, n: nat): seq<Value> {
    if n <= |vs| then vs[n..] else []
  }

  function RestGiven(rest: Option<Name>, vs: seq<Value>, n: nat): Pairs {
    if rest.Some? then [(rest.value, List(Beyond(vs, n)))] else []
  }

  lemma {:induction false} MatchPlain(xs: seq<Name>, more: seq<Param>, vs: seq<Value>, i: nat, optional: bool)
    requires i <= |vs| && (optional || i + |xs| <= |vs|)
    ensures var m := Match(Plain(xs) + more, vs, i, optional, false);
            var s := Match(more, vs, Min(i + |xs|, |vs|), optional, false);
            m == (Given(xs, vs, i) + s.0, s.1)
  {
    var s := Match(more, vs, Min(i + |xs|, |vs|), optional, false);
    if xs == [] {
      assert Plain(xs) + more == more && Given(xs, vs, i) + s.0 == s.0;
    } else {
      var j := Min(i + 1, |vs|);
      MatchPlain(xs[1..], more, vs, j, optional);
      assert (Plain(xs) + more)[1..] == Plain(xs[1..]) + more;
      var first := (xs[0], if i < |vs| then vs[i] else Nil);
      assert Given(xs, vs, i) == [first] + Given(xs[1..], vs, j);
      assert [first] + (Given(xs[1..], vs, j) + s.0) == Given(xs, vs, i) + s.0;
    }
  }

  lemma {:induction false} MatchFewer(xs: seq<Name>, more: seq<Param>, vs: seq<Value>, i: nat)
    requires i <= |vs| < i + |xs|
    ensures !Match(Plain(xs) + more, vs, i, false, false).1
  {
    assert (Plain(xs) + more)[1..] == Plain(xs[1..]) + more;
    if i < |vs| {
      MatchFewer(xs[1..], more, vs, i + 1);
    }
  }

  /** A lambda list takes at least the required arguments, and no more than those and the optional ones unless
      there is a rest parameter.  Parameters get the arguments in order, optional ones without an argument nil,
      the rest parameter the list of what is left. */
  lemma MatchIs(req: seq<Name>, opt: seq<Name>, rest: Option<Name>, vs: seq<Value>)
    ensures var m := Match(LambdaList(req, opt, rest), vs, 0, false, false);
            && (m.1 <==> |req| <= |vs| && (rest.Some? || |vs| <= |req| + |opt|))
            && (m.1 ==> m.0 == Given(req + opt, vs, 0) + RestGiven(rest, vs, |req| + |opt|))
  {
    hide Match, List, Plain, Given, OptionalOf, RestOf;
    var tail := OptionalOf(opt) + RestOf(rest);
    assert LambdaList(req, opt, rest) == Plain(req) + tail;
    if |vs| < |req| {
      MatchFewer(req, tail, vs, 0);
    } else {
      var j := Min(|req| + |opt|, |vs|);
      MatchPlain(req, tail, vs, 0, false);
      MatchOptional(opt, RestOf(rest), vs, |req|);
      MatchRest(rest, vs, j, opt != []);
      assert vs[j..] == Beyond(vs, |req| + |opt|);
      GivenBoth(req, opt, vs, RestGiven(rest, vs, |req| + |opt|));
    }
  }

  lemma GivenBoth(req: seq<Name>, opt: seq<Name>, vs: seq<Value>, more: Pairs)
    ensures Given(req, vs, 0) + (Given(opt, vs, |req|) + more) == Given(req + opt, vs, 0) + more
  {
  }

  lemma MatchOptional(opt: seq<Name>, more: seq<Param>, vs: seq<Value>, i: nat)
    requires i <= |vs|
    ensures var m := Match(OptionalOf(opt) + more, vs, i, false, false);
            var s := Match(more, vs, Min(i + |opt|, |vs|), opt != [], false);
            m == (Given(opt, vs, i) + s.0, s.1)
  {
    if opt == [] {
      var s := Match(more, vs, i, false, false);
      assert OptionalOf(opt) + more == more && Given(opt, vs, i) + s.0 == s.0;
    } else {
      var tail := Plain(opt) + more;
      assert OptionalOf(opt) + more == [AndOptional] + tail && ([AndOptional] + tail)[1..] == tail;
      MatchPlain(opt, more, vs, i, true);
    }
  }

  lemma MatchRest(rest: Option<Name>, vs: seq<Value>, j: nat, optional: bool)
    requires j <= |vs|
    ensures Match(RestOf(rest), vs, j, optional, false) ==
            if rest.Some? then ([(rest.value, List(vs[j..]))], true) else ([], j == |vs|)
  {
    hide List;
    if rest.Some? {
      var last := [Param(rest.value)];
      assert [AndRest] + last == RestOf(rest) && RestOf(rest)[1..] == last;
      MatchLast(rest.value, vs, j, optional);
    }
  }

  lemma MatchLast(x: Name, vs: seq<Value>, j: nat, optional: bool)
    requires j <= |vs|
    ensures Match([Param(x)], vs, j, optional, true) == ([(x, List(vs[j..]))], true)
  {
    hide List;
    assert Match([Param(x)][1..], vs, |vs|, optional, true) == ([], true);
    assert [(x, List(vs[j..]))] + [] == [(x, List(vs[j..]))];
  }

  /** The cdr taken `k` times. */
  function Tail(v: Value, k: nat): Value {
    if k == 0 then v else if v.Cons? then Tail(v.cdr, k - 1) else Nil
  }

  /** A list has its elements as the cars along it and ends in nil. */
  lemma {:induction false} ListIs(vs: seq<Value>, k: nat)
    requires k <= |vs|
    ensures if k == |vs| then Tail(List(vs), k) == Nil else Tail(List(vs), k).Cons? && Tail(List(vs), k).car == vs[k]
  {
    if k > 0 {
      ListIs(vs[1..], k - 1);
    }
  }

  /** Calling a function is its body inside a `let` of its parameters, or the error for the number. */
  lemma CallIsLet(f: Name, args: Args, req: seq<Name>, opt: seq<Name>, rest: Option<Name>, st: St, ctx: seq<Frame>,
                  pr: Program)
    requires Based(ctx) && f in pr.fns && pr.fns[f].params == LambdaList(req, opt, rest)
    requires st.ticks != [] && !st.ticks[0]
    requires RefArgs(args, st.(ticks := st.ticks[1..]), ctx, pr).1.Normal?
    ensures var r := RefArgs(args, st.(ticks := st.ticks[1..]), ctx, pr);
            var n := |r.2|;
            Ref(Call(f, args), st, ctx, pr) ==
            if |req| <= n && (rest.Some? || n <= |req| + |opt|) then
              Ref(Let(QuoteBinds(Given(req + opt, r.2, 0) + RestGiven(rest, r.2, |req| + |opt|)), pr.fns[f].body),
                  r.0, ctx, pr)
            else
              (r.0, SignalTo(ctx, pr, "wrong-number-of-arguments", Cons(Func(f), Cons(Int(n), Nil))))
  {
    hide Ref, Match;
    var r := RefArgs(args, st.(ticks := st.ticks[1..]), ctx, pr);
    RefCall(f, args, st, ctx, pr);
    MatchIs(req, opt, rest, r.2);
    LetQuotes(Given(req + opt, r.2, 0) + RestGiven(rest, r.2, |req| + |opt|), pr.fns[f].body, r.0, ctx, pr);
  }

  /** No call is made when the user quits, or when there is no such function: then the arguments are not evaluated. */
  lemma CallNotMade(f: Name, args: Args, st: St, ctx: seq<Frame>, pr: Program)
    requires Based(ctx)
    ensures st.ticks == [] ==> Ref(Call(f, args), st, ctx, pr) == (st, SignalTo(ctx, pr, "quit", Nil))
    ensures st.ticks != [] ==>
              var rest := st.(ticks := st.ticks[1..]);
              && (st.ticks[0] ==> Ref(Call(f, args), st, ctx, pr) == (rest, SignalTo(ctx, pr, "quit", Nil)))
              && (!st.ticks[0] && f !in pr.fns ==>
                    Ref(Call(f, args), st, ctx, pr) == (rest, SignalTo(ctx, pr, "void-function", Cons(Sym(f), Nil))))
  {
    hide Ref;
    RefCall(f, args, st, ctx, pr);
  }

  // ---- exits ----

  /** The cleanup form runs after the body, having been noted; the outcome is the body's unless the cleanup form
      exits. */
  lemma ProtectRuns(b: Expr, c: Expr, st: St, ctx: seq<Frame>, pr: Program)
    requires Based(ctx)
    ensures var r := Ref(b, st, ctx, pr);
            var s := Ref(c, r.0.(trace := r.0.trace + [c]), ctx, pr);
            Ref(UnwindProtect(b, c), st, ctx, pr) == (s.0, if s.1.Exit? then s.1 else r.1)
  {
  }

  lemma {:induction false} CatchFound(ctx: seq<Frame>, inner: seq<Frame>, tag: Value)
    requires CatchFrame(tag) !in inner
    ensures FindCatch(ctx + [CatchFrame(tag)] + inner, tag) == |ctx|
  {
    var all := ctx + [CatchFrame(tag)] + inner;
    if inner != [] {
      var n := |inner| - 1;
      assert all[..|all| - 1] == ctx + [CatchFrame(tag)] + inner[..n] && all[|all| - 1] == inner[n];
      CatchFound(ctx, inner[..n], tag);
    }
  }

  lemma {:induction false} CatchMissing(ctx: seq<Frame>, tag: Value)
    requires CatchFrame(tag) !in ctx
    ensures FindCatch(ctx, tag) == -1
  {
    if ctx != [] {
      assert ctx[|ctx| - 1] in ctx;
      CatchMissing(ctx[..|ctx| - 1], tag);
    }
  }

  lemma ThrowIs(a: Expr, b: Expr, st: St, r: (St, Out), s: (St, Out), ctx: seq<Frame>, pr: Program)
    requires Based(ctx) && r == Ref(a, st, ctx, pr) && r.1.Normal? && s == Ref(b, r.0, ctx, pr) && s.1.Normal?
    ensures Ref(Throw(a, b), st, ctx, pr) == (s.0, ThrowTo(ctx, pr, r.1.v, s.1.v))
  {
  }

  /** A throw goes to the innermost catch for its tag, whatever stands between. */
  lemma ThrowReaches(a: Expr, b: Expr, st: St, ctx: seq<Frame>, inner: seq<Frame>, tag: Value, pr: Program)
    requires tag != Nil && CatchFrame(tag) !in inner && Based(ctx + [CatchFrame(tag)] + inner)
    requires var all := ctx + [CatchFrame(tag)] + inner;
             Ref(a, st, all, pr).1 == Normal(tag) && Ref(b, Ref(a, st, all, pr).0, all, pr).1.Normal?
    ensures var all := ctx + [CatchFrame(tag)] + inner;
            var r := Ref(b, Ref(a, st, all, pr).0, all, pr);
            Ref(Throw(a, b), st, all, pr) == (r.0, Exit(|ctx|, Thrown(r.1.v)))
  {
    hide Ref;
    var all := ctx + [CatchFrame(tag)] + inner;
    var r := Ref(a, st, all, pr);
    ThrowIs(a, b, st, r, Ref(b, r.0, all, pr), all, pr);
    CatchFound(ctx, inner, tag);
  }

  /** Without such a catch, or to nil, it is an error. */
  lemma ThrowNowhere(a: Expr, b: Expr, st: St, ctx: seq<Frame>, pr: Program)
    requires Based(ctx) && Ref(a, st, ctx, pr).1.Normal? && Ref(b, Ref(a, st, ctx, pr).0, ctx, pr).1.Normal?
    requires var tag := Ref(a, st, ctx, pr).1.v; tag == Nil || CatchFrame(tag) !in ctx
    ensures var tag := Ref(a, st, ctx, pr).1.v;
            var r := Ref(b, Ref(a, st, ctx, pr).0, ctx, pr);
            Ref(Throw(a, b), st, ctx, pr) == (r.0, SignalTo(ctx, pr, "no-catch", Cons(tag, Cons(r.1.v, Nil))))
  {
    hide Ref;
    var r := Ref(a, st, ctx, pr);
    ThrowIs(a, b, st, r, Ref(b, r.0, ctx, pr), ctx, pr);
    var tag := r.1.v;
    if tag != Nil {
      CatchMissing(ctx, tag);
    }
  }

  /** What a catch gives: the body's value, or what is thrown to it; other exits pass. */
  lemma CatchGives(a: Expr, b: Expr, st: St, ctx: seq<Frame>, pr: Program)
    requires Based(ctx) && Ref(a, st, ctx, pr).1.Normal?
    ensures var r := Ref(a, st, ctx, pr);
            var s := Ref(b, r.0, ctx + [CatchFrame(r.1.v)], pr);
            var all := Ref(Catch(a, b), st, ctx, pr);
            && all.0 == s.0
            && (s.1.Normal? ==> all.1 == s.1)
            && (s.1.Exit? && s.1.level == |ctx| ==> s.1.p.Thrown? && all.1 == Normal(s.1.p.v))
            && (s.1.Exit? && s.1.level != |ctx| ==> s.1.level < |ctx| && all.1 == s.1)
  {
  }

  /** A throw straight to the enclosing catch gives the value thrown. */
  lemma CatchThrow(tag: Value, b: Expr, st: St, ctx: seq<Frame>, pr: Program)
    requires Based(ctx) && tag != Nil && Ref(b, st, ctx + [CatchFrame(tag)], pr).1.Normal?
    ensures Ref(Catch(Quote(tag), Throw(Quote(tag), b)), st, ctx, pr) == Ref(b, st, ctx + [CatchFrame(tag)], pr)
  {
    hide Ref;
    var inside := ctx + [CatchFrame(tag)];
    assert inside + [] == inside;
    QuoteGives(tag, st, ctx, pr);
    QuoteGives(tag, st, inside, pr);
    ThrowReaches(Quote(tag), b, st, ctx, [], tag, pr);
    CatchGives(Quote(tag), Throw(Quote(tag), b), st, ctx, pr);
  }

  // ---- errors ----

  /** The clauses one by one: condition and body. */
  function ClauseList(cs: Clauses): seq<(Name, Expr)> {
    if cs.NoClauses? then [] else [(cs.condition, cs.body)] + ClauseList(cs.rest)
  }

  ghost predicate FirstFor(cs: Clauses, conditions: seq<Name>, k: nat) {
    && k < |ClauseList(cs)| && ClauseList(cs)[k].0 in conditions
    && forall j :: 0 <= j < k ==> ClauseList(cs)[j].0 !in conditions
  }

  ghost predicate NoneFor(f: Frame, conditions: seq<Name>) {
    f.HandlerFrame? ==> forall j :: 0 <= j < |ClauseList(f.clauses)| ==> ClauseList(f.clauses)[j].0 !in conditions
  }

  /** No clause there is for a condition of the signal. */
  ghost predicate Ignores(f: Frame, pr: Program, sig: Name) {
    sig in pr.props ==> NoneFor(f, pr.props[sig])
  }

  lemma NoPropsNone(f: Frame, pr: Program, sig: Name)
    requires Ignores(f, pr, sig)
    ensures NoneFor(f, Conditions(pr, sig))
  {
  }

  lemma {:induction false} NthIs(cs: Clauses, k: nat)
    requires k < |ClauseList(cs)|
    ensures Length(cs) == |ClauseList(cs)| && Nth(cs, k) == ClauseList(cs)[k].1
  {
    if k > 0 {
      NthIs(cs.rest, k - 1);
    } else {
      LengthIs(cs);
    }
  }

  lemma LengthIs(cs: Clauses)
    ensures Length(cs) == |ClauseList(cs)|
  {
  }

  /** The clause that is found is the first one that fits. */
  lemma {:induction false} FirstIs(cs: Clauses, conditions: seq<Name>, k: nat)
    requires FirstFor(cs, conditions, k)
    ensures FirstMatch(cs, conditions) == k
  {
    assert ClauseList(cs)[0].0 == cs.condition;
    if k > 0 {
      assert forall j :: 0 <= j < k - 1 ==> ClauseList(cs.rest)[j] == ClauseList(cs)[j + 1];
      FirstIs(cs.rest, conditions, k - 1);
    }
  }

  lemma {:induction false} NoneIs(cs: Clauses, conditions: seq<Name>)
    requires NoneFor(HandlerFrame(cs), conditions)
    ensures FirstMatch(cs, conditions) == Length(cs)
  {
    if cs.Clause? {
      assert ClauseList(cs)[0].0 == cs.condition;
      assert forall j :: 0 <= j < |ClauseList(cs.rest)| ==> ClauseList(cs.rest)[j] == ClauseList(cs)[j + 1];
      NoneIs(cs.rest, conditions);
    }
  }

  lemma {:induction false} HandlerFound(ctx: seq<Frame>, cs: Clauses, inner: seq<Frame>, conditions: seq<Name>, k: nat)
    requires FirstFor(cs, conditions, k) && forall i :: 0 <= i < |inner| ==> NoneFor(inner[i], conditions)
    ensures FindHandler(ctx + [HandlerFrame(cs)] + inner, conditions) == |ctx|
  {
    var all := ctx + [HandlerFrame(cs)] + inner;
    if inner == [] {
      FirstIs(cs, conditions, k);
      LengthIs(cs);
    } else {
      var n := |inner| - 1;
      assert all[..|all| - 1] == ctx + [HandlerFrame(cs)] + inner[..n] && all[|all| - 1] == inner[n];
      if inner[n].HandlerFrame? {
        NoneIs(inner[n].clauses, conditions);
      }
      HandlerFound(ctx, cs, inner[..n], conditions, k);
    }
  }

  lemma {:induction false} HandlerMissing(ctx: seq<Frame>, conditions: seq<Name>)
    requires forall i :: 0 <= i < |ctx| ==> NoneFor(ctx[i], conditions)
    ensures FindHandler(ctx, conditions) == -1
  {
    if ctx != [] {
      var n := |ctx| - 1;
      if ctx[n].HandlerFrame? {
        NoneIs(ctx[n].clauses, conditions);
      }
      HandlerMissing(ctx[..n], conditions);
    }
  }

  /** A signal goes to the innermost condition-case with a clause for one of its conditions, and to the first such
      clause, with (SIGNAL . DATA). */
  lemma SignalReaches(ctx: seq<Frame>, cs: Clauses, inner: seq<Frame>, pr: Program, sig: Name, data: Value, k: nat)
    requires Based(ctx + [HandlerFrame(cs)] + inner) && sig in pr.props && FirstFor(cs, pr.props[sig], k)
    requires forall i :: 0 <= i < |inner| ==> Ignores(inner[i], pr, sig)
    ensures SignalTo(ctx + [HandlerFrame(cs)] + inner, pr, sig, data) == Exit(|ctx|, Caught(k, Cons(Sym(sig), data)))
  {
    HandlerFound(ctx, cs, inner, Conditions(pr, sig), k);
    FirstIs(cs, Conditions(pr, sig), k);
    assert (ctx + [HandlerFrame(cs)] + inner)[|ctx|] == HandlerFrame(cs);
  }

  /** Without one it is left for the condition-cases further out. */
  lemma SignalPasses(ctx: seq<Frame>, f: Frame, pr: Program, sig: Name, data: Value)
    requires Based(ctx) && Ignores(f, pr, sig) && f != CatchFrame(TOP)
    ensures SignalTo(ctx + [f], pr, sig, data) == SignalTo(ctx, pr, sig, data)
  {
    assert (ctx + [f])[..|ctx|] == ctx;
    if f.HandlerFrame? {
      NoneIs(f.clauses, Conditions(pr, sig));
    }
  }

  /** If nobody handles it, it ends at top level. */
  lemma SignalUnhandled(ctx: seq<Frame>, pr: Program, sig: Name, data: Value)
    requires Based(ctx) && forall i :: 0 <= i < |ctx| ==> Ignores(ctx[i], pr, sig)
    requires CatchFrame(TOP) !in ctx[1..]
    ensures SignalTo(ctx, pr, sig, data) == Exit(0, Thrown(T))
  {
    forall i | 0 <= i < |ctx| ensures NoneFor(ctx[i], Conditions(pr, sig)) { NoPropsNone(ctx[i], pr, sig); }
    HandlerMissing(ctx, Conditions(pr, sig));
    assert ctx == [] + [CatchFrame(TOP)] + ctx[1..];
    CatchFound([], ctx[1..], TOP);
  }

  /** condition-case: an exit to it runs the clause found, outside its protection, inside a `let` of the variable;
      other outcomes of the body are its own. */
  lemma ConditionCaseRuns(x: Option<Name>, b: Expr, cs: Clauses, st: St, ctx: seq<Frame>, pr: Program)
    requires Based(ctx)
    ensures var s := Ref(b, st, ctx + [HandlerFrame(cs)], pr);
            if s.1.Exit? && s.1.level == |ctx| then
              && s.1.p.Caught? && s.1.p.k < |ClauseList(cs)|
              && var binds := if x.Some? then Bind(x.value, Quote(s.1.p.v), NoBinds) else NoBinds;
                 Ref(ConditionCase(x, b, cs), st, ctx, pr) == Ref(Let(binds, ClauseList(cs)[s.1.p.k].1), s.0, ctx, pr)
            else
              Ref(ConditionCase(x, b, cs), st, ctx, pr) == s
  {
    hide Ref, RefWithin, Nth;
    var s := Ref(b, st, ctx + [HandlerFrame(cs)], pr);
    ConditionCaseIs(x, b, cs, st, ctx, pr);
    if s.1.Exit? && s.1.level == |ctx| {
      NthIs(cs, s.1.p.k);
      var ps: Pairs := if x.Some? then [(x.value, s.1.p.v)] else [];
      LetQuotes(ps, ClauseList(cs)[s.1.p.k].1, s.0, ctx, pr);
      assert QuoteBinds(ps) == if x.Some? then Bind(x.value, Quote(s.1.p.v), NoBinds) else NoBinds;
    }
  }

  lemma ConditionCaseIs(x: Option<Name>, b: Expr, cs: Clauses, st: St, ctx: seq<Frame>, pr: Program)
    requires Based(ctx)
    ensures var s := Ref(b, st, ctx + [HandlerFrame(cs)], pr);
            if s.1.Exit? && s.1.level == |ctx| then
              && s.1.p.Caught? && s.1.p.k < Length(cs) == |ClauseList(cs)|
              && Ref(ConditionCase(x, b, cs), st, ctx, pr) ==
                 RefWithin(if x.Some? then [(x.value, s.1.p.v)] else [], Nth(cs, s.1.p.k), s.0, ctx, pr)
            else Ref(ConditionCase(x, b, cs), st, ctx, pr) == s
  {
    hide RefWithin, Nth;
    LengthIs(cs);
    assert (ctx + [HandlerFrame(cs)])[|ctx|] == HandlerFrame(cs);
  }

  /** A signal right under a condition-case: the first clause that fits, with (SIGNAL . DATA) in the variable. */
  lemma ConditionCaseSignal(x: Name, sig: Name, a: Expr, cs: Clauses, k: nat, st: St, ctx: seq<Frame>, pr: Program)
    requires Based(ctx) && sig in pr.props && FirstFor(cs, pr.props[sig], k)
    requires Ref(a, st, ctx + [HandlerFrame(cs)], pr).1.Normal?
    ensures var r := Ref(a, st, ctx + [HandlerFrame(cs)], pr);
            Ref(ConditionCase(Some(x), Signal(sig, a), cs), st, ctx, pr) ==
            Ref(Let(Bind(x, Quote(Cons(Sym(sig), r.1.v)), NoBinds), ClauseList(cs)[k].1), r.0, ctx, pr)
  {
    var inside := ctx + [HandlerFrame(cs)];
    assert inside + [] == inside;
    var r := Ref(a, st, inside, pr);
    SignalReaches(ctx, cs, [], pr, sig, r.1.v, k);
    assert Ref(Signal(sig, a), st, inside, pr) == (r.0, SignalTo(inside, pr, sig, r.1.v));
    ConditionCaseRuns(Some(x), Signal(sig, a), cs, st, ctx, pr);
  }

  // ---- at top level ----

  /** What running `e` at top level comes to. */
  ghost predicate Ran(e: Expr, st: St, pr: Program, after: St, v: Value) {
    var o := Ref(e, st, [CatchFrame(TOP)], pr);
    after == o.0 && v == Arriving(o.1)
  }

  function Arriving(o: Out): Value {
    if o.Normal? then o.v else o.p.v
  }

  /** The first part of `e` has given its value: what running `e` comes to then, in terms of its other parts. */
  ghost predicate Goes(e: Expr, st: St, x: Value, pr: Program, after: St, v: Value)
    requires First(e).Some?
  {
    match e
    case Setq(y, _) => after == st.(vars := st.vars[y := x]) && v == x
    case Then(_, b) => Ran(b, st, pr, after, v)
    case If(_, b, c) => if x == Nil then Ran(c, st, pr, after, v) else Ran(b, st, pr, after, v)
    case While(_, b) =>
      if x == Nil then after == st && v == Nil
      else if st.ticks == [] then after == st && v == T
      else
        var next := st.(ticks := st.ticks[1..]);
        if st.ticks[0] then after == next && v == T else Ran(Then(b, e), next, pr, after, v)
    case Catch(_, b) =>
      var s := Ref(b, st, [CatchFrame(TOP), CatchFrame(x)], pr);
      && after == s.0 && v == Arriving(s.1)
      && (x != Nil && b.Throw? && b.tag == Quote(x) && b.val.Quote? ==> after == st && v == b.val.v)
    case Throw(_, b) => b.Quote? ==> after == st && v == if x == TOP then b.v else T
    case Signal(_, _) => after == st && v == T
  }

  /** The law of each form. */
  ghost predicate Lawful(e: Expr, st: St, pr: Program, after: St, v: Value) {
    if First(e).Some? then
      var r := Ref(First(e).value, st, [CatchFrame(TOP)], pr);
      if r.1.Normal? then Goes(e, r.0, r.1.v, pr, after, v) else after == r.0 && v == r.1.p.v
    else OtherLaw(e, st, pr, after, v)
  }

  ghost predicate OtherLaw(e: Expr, st: St, pr: Program, after: St, v: Value) {
    match e
    case Quote(x) => after == st && v == x
    case Var(x) => after == st && v == if x in st.vars then st.vars[x] else T
    case Let(bs, b) =>
      var r := RefArgs(Inits(bs), st, [CatchFrame(TOP)], pr);
      if r.1.Normal? then Ran(Let(QuoteBinds(Zip(Names(bs), r.2)), b), r.0, pr, after, v)
      else after == r.0 && v == r.1.p.v
    case LetX(NoBinds, b) => Ran(b, st, pr, after, v)
    case LetX(Bind(x, a, rest), b) =>
      var r := Ref(a, st, [CatchFrame(TOP)], pr);
      if r.1.Normal? then Ran(Let(Bind(x, Quote(r.1.v), NoBinds), LetX(rest, b)), r.0, pr, after, v)
      else after == r.0 && v == r.1.p.v
    case UnwindProtect(b, c) =>
      var r := Ref(b, st, [CatchFrame(TOP)], pr);
      var s := Ref(c, r.0.(trace := r.0.trace + [c]), [CatchFrame(TOP)], pr);
      after == s.0 && v == Arriving(if s.1.Exit? then s.1 else r.1)
    case ConditionCase(Some(x), Signal(sig, Quote(d)), cs) =>
      if sig !in pr.props then after == st && v == T
      else
        && (NoneFor(HandlerFrame(cs), pr.props[sig]) ==> after == st && v == T)
        && forall k: nat :: FirstFor(cs, pr.props[sig], k) ==>
             Ran(Let(Bind(x, Quote(Cons(Sym(sig), d)), NoBinds), ClauseList(cs)[k].1), st, pr, after, v)
    case Call(f, args) => CallLaw(f, args, st, pr, after, v)
    case _ => true
  }

  ghost predicate CallLaw(f: Name, args: Args, st: St, pr: Program, after: St, v: Value) {
    if st.ticks == [] then after == st && v == T
    else
      var next := st.(ticks := st.ticks[1..]);
      if st.ticks[0] || f !in pr.fns then after == next && v == T
      else
        var r := RefArgs(args, next, [CatchFrame(TOP)], pr);
        if r.1.Exit? then after == r.0 && v == r.1.p.v
        else
          forall req, opt, rest :: pr.fns[f].params == LambdaList(req, opt, rest) ==>
            AppliedLaw(pr.fns[f].body, req, opt, rest, r.2, r.0, pr, after, v)
  }

  /** A function with these parameters and this body has been given the values `vs`. */
  ghost predicate AppliedLaw(body: Expr, req: seq<Name>, opt: seq<Name>, rest: Option<Name>, vs: seq<Value>, st: St,
                             pr: Program, after: St, v: Value) {
    if |req| <= |vs| && (rest.Some? || |vs| <= |req| + |opt|) then
      var ps := Given(req + opt, vs, 0) + RestGiven(rest, vs, |req| + |opt|);
      Ran(Let(QuoteBinds(ps), body), st, pr, after, v)
    else after == st && v == T
  }

  lemma Unhandled(pr: Program, sig: Name, data: Value)
    ensures SignalTo([CatchFrame(TOP)], pr, sig, data) == Exit(0, Thrown(T))
  {
    assert forall i :: 0 <= i < |[CatchFrame(TOP)]| ==> Ignores([CatchFrame(TOP)][i], pr, sig);
    SignalUnhandled([CatchFrame(TOP)], pr, sig, data);
  }

  lemma FirstPartLaw(e: Expr, st: St, pr: Program)
    requires First(e).Some?
    ensures var o := Ref(e, st, [CatchFrame(TOP)], pr); Lawful(e, st, pr, o.0, Arriving(o.1))
  {
    hide Ref;
    var ctx := [CatchFrame(TOP)];
    var r := Ref(First(e).value, st, ctx, pr);
    if r.1.Exit? {
      ExitPassesOn(e, st, ctx, pr);
    } else {
      match e
      case Setq(y, a) => SetqThenVar(y, a, st, ctx, pr);
      case Then(a, b) => ThenRuns(a, b, st, ctx, pr);
      case If(a, b, c) => IfChooses(a, b, c, st, ctx, pr);
      case While(a, b) =>
        WhileUnrolls(a, b, st, ctx, pr);
        Unhandled(pr, "quit", Nil);
      case Catch(a, b) => CatchLaw(a, b, st, pr);
      case Throw(a, b) => ThrowLaw(a, b, st, pr);
      case Signal(sig, a) =>
        SignalGoes(sig, a, st, ctx, pr);
        Unhandled(pr, sig, r.1.v);
    }
  }

  lemma SignalGoes(sig: Name, a: Expr, st: St, ctx: seq<Frame>, pr: Program)
    requires Based(ctx) && Ref(a, st, ctx, pr).1.Normal?
    ensures var r := Ref(a, st, ctx, pr); Ref(Signal(sig, a), st, ctx, pr) == (r.0, SignalTo(ctx, pr, sig, r.1.v))
  {
  }

  lemma CatchLaw(a: Expr, b: Expr, st: St, pr: Program)
    requires Ref(a, st, [CatchFrame(TOP)], pr).1.Normal?
    ensures var o := Ref(Catch(a, b), st, [CatchFrame(TOP)], pr); Lawful(Catch(a, b), st, pr, o.0, Arriving(o.1))
  {
    hide Ref;
    var ctx := [CatchFrame(TOP)];
    var r := Ref(a, st, ctx, pr);
    var tag := r.1.v;
    var inside := [CatchFrame(TOP), CatchFrame(tag)];
    assert ctx + [CatchFrame(tag)] == inside && inside + [] == inside;
    CatchGives(a, b, st, ctx, pr);
    if tag != Nil && b.Throw? && b.tag == Quote(tag) && b.val.Quote? {
      QuoteGives(tag, r.0, inside, pr);
      QuoteGives(b.val.v, r.0, inside, pr);
      ThrowReaches(Quote(tag), b.val, r.0, ctx, [], tag, pr);
    }
  }

  lemma ThrowLaw(a: Expr, b: Expr, st: St, pr: Program)
    requires Ref(a, st, [CatchFrame(TOP)], pr).1.Normal?
    ensures var o := Ref(Throw(a, b), st, [CatchFrame(TOP)], pr); Lawful(Throw(a, b), st, pr, o.0, Arriving(o.1))
  {
    hide Ref;
    var ctx := [CatchFrame(TOP)];
    var r := Ref(a, st, ctx, pr);
    if b.Quote? {
      QuoteGives(b.v, r.0, ctx, pr);
      if r.1.v == TOP {
        assert [] + ctx + [] == ctx;
        ThrowReaches(a, b, st, [], [], TOP, pr);
      } else {
        ThrowNowhere(a, b, st, ctx, pr);
        Unhandled(pr, "no-catch", Cons(r.1.v, Cons(b.v, Nil)));
      }
    }
  }

  lemma LetLaw(bs: Binds, b: Expr, st: St, pr: Program)
    ensures var o := Ref(Let(bs, b), st, [CatchFrame(TOP)], pr); Lawful(Let(bs, b), st, pr, o.0, Arriving(o.1))
  {
    hide RefWithin, Zip, QuoteBinds;
    var ctx := [CatchFrame(TOP)];
    var r := RefArgs(Inits(bs), st, ctx, pr);
    if r.1.Normal? {
      LetIs(bs, b, st, ctx, pr);
      LetQuotes(Zip(Names(bs), r.2), b, r.0, ctx, pr);
    }
  }

  /** let* is a `let` of the first variable with the other bindings inside it. */
  lemma LetXNested(x: Name, a: Expr, rest: Binds, b: Expr, st: St, ctx: seq<Frame>, pr: Program)
    requires Based(ctx) && Ref(a, st, ctx, pr).1.Normal?
    ensures var r := Ref(a, st, ctx, pr);
            Ref(LetX(Bind(x, a, rest), b), st, ctx, pr) ==
            Ref(Let(Bind(x, Quote(r.1.v), NoBinds), LetX(rest, b)), r.0, ctx, pr)
  {
    hide Ref;
    var r := Ref(a, st, ctx, pr);
    var ps: Pairs := [(x, r.1.v)];
    LetXStarts(x, a, rest, b, st, ctx, pr);
    LetQuotes(ps, LetX(rest, b), r.0, ctx, pr);
    assert QuoteBinds(ps) == Bind(x, Quote(r.1.v), NoBinds);
    assert BindVars(r.0.vars, ps) == r.0.vars[x := r.1.v] by {
      assert ps[..0] == [];
    }
    assert Bound(ps) == {x} by {
      assert ps[0].0 == x;
    }
  }

  lemma LetXLaw(bs: Binds, b: Expr, st: St, pr: Program)
    ensures var o := Ref(LetX(bs, b), st, [CatchFrame(TOP)], pr); Lawful(LetX(bs, b), st, pr, o.0, Arriving(o.1))
  {
    hide RefWithin, RefArgs;
    var ctx := [CatchFrame(TOP)];
    match bs
    case NoBinds => LetXEnds(b, st, ctx, pr);
    case Bind(x, a, rest) =>
      if Ref(a, st, ctx, pr).1.Normal? {
        LetXNested(x, a, rest, b, st, ctx, pr);
      }
  }

  lemma ConditionCaseLaw(x: Name, sig: Name, d: Value, cs: Clauses, st: St, pr: Program)
    ensures var e := ConditionCase(Some(x), Signal(sig, Quote(d)), cs);
            var o := Ref(e, st, [CatchFrame(TOP)], pr);
            Lawful(e, st, pr, o.0, Arriving(o.1))
  {
    hide Ref;
    var ctx := [CatchFrame(TOP)];
    var inside := ctx + [HandlerFrame(cs)];
    var e := Signal(sig, Quote(d));
    QuoteGives(d, st, inside, pr);
    if sig in pr.props {
      forall k: nat | FirstFor(cs, pr.props[sig], k)
        ensures Ref(ConditionCase(Some(x), e, cs), st, ctx, pr) ==
                Ref(Let(Bind(x, Quote(Cons(Sym(sig), d)), NoBinds), ClauseList(cs)[k].1), st, ctx, pr)
      {
        ConditionCaseSignal(x, sig, Quote(d), cs, k, st, ctx, pr);
      }
    }
    if Ignores(HandlerFrame(cs), pr, sig) {
      SignalPassesHere(HandlerFrame(cs), pr, sig, d);
      SignalGoes(sig, Quote(d), st, inside, pr);
      ConditionCaseRuns(Some(x), e, cs, st, ctx, pr);
    }
  }

  lemma SignalPassesHere(f: Frame, pr: Program, sig: Name, data: Value)
    requires Ignores(f, pr, sig) && f != CatchFrame(TOP)
    ensures SignalTo([CatchFrame(TOP)] + [f], pr, sig, data) == Exit(0, Thrown(T))
  {
    SignalPasses([CatchFrame(TOP)], f, pr, sig, data);
    Unhandled(pr, sig, data);
  }

  lemma AppliedLawHolds(f: Name, args: Args, req: seq<Name>, opt: seq<Name>, rest: Option<Name>, st: St, pr: Program)
    requires f in pr.fns && pr.fns[f].params == LambdaList(req, opt, rest) && st.ticks != [] && !st.ticks[0]
    requires RefArgs(args, st.(ticks := st.ticks[1..]), [CatchFrame(TOP)], pr).1.Normal?
    ensures var r := RefArgs(args, st.(ticks := st.ticks[1..]), [CatchFrame(TOP)], pr);
            var o := Ref(Call(f, args), st, [CatchFrame(TOP)], pr);
            AppliedLaw(pr.fns[f].body, req, opt, rest, r.2, r.0, pr, o.0, Arriving(o.1))
  {
    hide Ref, RefArgs, LambdaList, Given, RestGiven, QuoteBinds;
    var r := RefArgs(args, st.(ticks := st.ticks[1..]), [CatchFrame(TOP)], pr);
    CallIsLet(f, args, req, opt, rest, st, [CatchFrame(TOP)], pr);
    Unhandled(pr, "wrong-number-of-arguments", Cons(Func(f), Cons(Int(|r.2|), Nil)));
  }

  lemma CallLawHolds(f: Name, args: Args, st: St, pr: Program)
    ensures var o := Ref(Call(f, args), st, [CatchFrame(TOP)], pr); CallLaw(f, args, st, pr, o.0, Arriving(o.1))
  {
    hide Ref, RefArgs, RefApply, LambdaList, AppliedLaw;
    var ctx := [CatchFrame(TOP)];
    CallNotMade(f, args, st, ctx, pr);
    Unhandled(pr, "quit", Nil);
    Unhandled(pr, "void-function", Cons(Sym(f), Nil));
    if st.ticks != [] && !st.ticks[0] && f in pr.fns {
      var r := RefArgs(args, st.(ticks := st.ticks[1..]), ctx, pr);
      var o := Ref(Call(f, args), st, ctx, pr);
      RefCall(f, args, st, ctx, pr);
      forall req, opt, rest | r.1.Normal? && pr.fns[f].params == LambdaList(req, opt, rest)
        ensures AppliedLaw(pr.fns[f].body, req, opt, rest, r.2, r.0, pr, o.0, Arriving(o.1))
      {
        AppliedLawHolds(f, args, req, opt, rest, st, pr);
      }
    }
  }

  /** Every form obeys its law at top level. */
  lemma AllLawful(e: Expr, st: St, pr: Program)
    ensures var o := Ref(e, st, [CatchFrame(TOP)], pr); Lawful(e, st, pr, o.0, Arriving(o.1))
  {
    hide Ref, RefArgs, CallLaw;
    var ctx := [CatchFrame(TOP)];
    if First(e).Some? {
      FirstPartLaw(e, st, pr);
    } else {
      match e
      case Quote(x) => QuoteGives(x, st, ctx, pr);
      case Var(x) =>
        VarGives(x, st, ctx, pr);
        Unhandled(pr, "void-variable", Cons(Sym(x), Nil));
      case Let(bs, b) => LetLaw(bs, b, st, pr);
      case LetX(bs, b) => LetXLaw(bs, b, st, pr);
      case UnwindProtect(b, c) => ProtectRuns(b, c, st, ctx, pr);
      case ConditionCase(Some(x), Signal(sig, Quote(d)), cs) => ConditionCaseLaw(x, sig, d, cs, st, pr);
      case Call(f, args) => CallLawHolds(f, args, st, pr);
      case _ =>
    }
  }
}
