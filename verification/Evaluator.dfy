/** The evaluator: Lisp forms run on explicit stacks, with setjmp and longjmp as jumps to a place on the
    catch list, come to exactly what the forms mean. */
module Evaluator {
  import opened Common
  import opened Unwind
  import FormLaws

  class Machine {
    const prog: Program
    var vars: map<Name, Value>
    var ticks: seq<bool>
    var specpdl: seq<Record>
    var catchlist: seq<CatchTag>
    var handlerlist: seq<Handler>
    var backtraceList: seq<Expr>
    var lispEvalDepth: nat
    ghost var trace: seq<Expr>
    ghost var frames: seq<Frame>

    ghost function State(): St
      reads this
    {
      St(vars, ticks, trace)
    }

    ghost function Stack(): Dump
      reads this
    {
      Dump(specpdl, catchlist, frames, handlerlist, backtraceList, lispEvalDepth)
    }

    ghost predicate Valid()
      reads this
    {
      Sound(Stack())
    }

    lemma ValidBased()
      requires Valid()
      ensures Based(frames) && Stacks(frames, catchlist, |specpdl|) && |catchlist| == |frames|
      ensures forall i :: 0 <= i < |frames| ==> catchlist[i].tag == TagOf(frames[i])
    {
    }

    /** From the stacks `d` the machine has arrived at `f`. */
    ghost predicate At(d: Dump, f: Final, r: Arrival)
      requires f.n <= |d.pdl| && (f.out.Jump? ==> f.k < |d.catches| && f.k < |d.ctx|)
      reads this
    {
      State() == f.st && r == f.out && Stack() == Left(d, f)
    }

    /** From the stacks `d`, evaluation with outcome `o` has brought the machine here. */
    ghost predicate Went(d: Dump, o: (St, Out), r: Arrival)
      requires Sound(d) && Fits(d.ctx, o.1)
      reads this
    {
      At(d, From(d, o, |d.pdl|, prog), r)
    }

    /** Undo the last binding, or run the last cleanup form. */
    method UndoRecord(count: nat) returns (r: Arrival)
      requires Valid() && count < |specpdl| && Stacks(frames, catchlist, count)
      modifies this
      ensures var whole := From(old(Stack()), (old(State()), Normal(Nil)), count, prog);
              if r.Jump? then At(old(Stack()), whole, r)
              else
                && Stack() == old(Stack()).(pdl := old(specpdl)[..|old(specpdl)| - 1]) && Valid()
                && From(Stack(), (State(), Normal(Nil)), count, prog) == whole
      ensures Less(old(State()), State())
      decreases |ticks|, PdlSize(specpdl), 0
    {
      hide Stacks, Settle, Land, Unbind, Ref, Cleaned;
      ValidBased();
      ghost var d, st := Stack(), State();
      var rest, rec := specpdl[..|specpdl| - 1], specpdl[|specpdl| - 1];
      assert specpdl == rest + [rec];
      StacksOver(frames, catchlist, count, |rest|);
      match rec
      case Binding(x, v) =>
        SettleBinding((State(), Normal(Nil)), rest, x, v, count, catchlist, frames, prog);
        specpdl := rest;
        vars := SetBack(vars, x, v);
        r := Result(Nil);
      case Cleanup(c) =>
        CleanupStep(State(), rest, c, count, catchlist, frames, prog);
        specpdl := rest;
        trace := trace + [c];
        r := Eval(c);
        if r.Jump? {
          LeftPrefix(d, |rest|, From(d, (st, Normal(Nil)), count, prog));
        }
    }

    /** unbind_to. */
    method UnbindTo(count: nat) returns (r: Arrival)
      requires Valid() && count <= |specpdl| && Stacks(frames, catchlist, count)
      modifies this
      ensures At(old(Stack()), From(old(Stack()), (old(State()), Normal(Nil)), count, prog), r)
      decreases |ticks|, PdlSize(specpdl), 1
    {
      hide Stacks, Settle, Land, Unbind, Ref, Cleaned;
      ValidBased();
      ghost var d, st := Stack(), State();
      ghost var goal := From(d, (st, Normal(Nil)), count, prog);
      assert d.pdl == d.pdl[..|d.pdl|];
      while |specpdl| != count
        invariant count <= |specpdl| <= |d.pdl| && Stack() == d.(pdl := d.pdl[..|specpdl|]) && Valid()
        invariant Less(st, State())
        invariant From(Stack(), (State(), Normal(Nil)), count, prog) == goal
        decreases |specpdl|
      {
        ghost var n := |specpdl|;
        PdlPrefix(d.pdl, n);
        LeftPrefix(d, n, goal);
        r := UndoRecord(count);
        if r.Jump? {
          return;
        }
        assert d.pdl[..n][..n - 1] == d.pdl[..n - 1];
      }
      FromDone(Stack(), State(), Nil, count, prog);
      r := Result(Nil);
    }

    /** One round of unbind_catch: undo what was bound since the innermost catch, then drop it. */
    method PopCatch() returns (r: Arrival)
      requires Valid()
      modifies this
      ensures var d := old(Stack());
              var count := d.catches[|d.ctx| - 1].pdlcount;
              && count <= |d.pdl| && Stacks(d.ctx, d.catches, count)
              && var f := From(d, (old(State()), Normal(Nil)), count, prog);
                 if r.Jump? then At(d, f, r) else f.out.Result? && State() == f.st && Stack() == Popped(d)
      decreases |ticks|, PdlSize(specpdl), 2
    {
      hide Stacks, Settle, Land, Unbind, Ref, Cleaned;
      ValidBased();
      var top := catchlist[|catchlist| - 1];
      StacksOver(frames, catchlist, |specpdl|, top.pdlcount);
      r := UnbindTo(top.pdlcount);
      if r.Result? {
        DropCatch();
      }
    }

    method DropCatch()
      requires |catchlist| == |frames| > 0
      modifies this`handlerlist, this`catchlist, this`frames
      ensures var k := |old(catchlist)| - 1;
              && handlerlist == old(catchlist)[k].handlers
              && catchlist == old(catchlist)[..k] && frames == old(frames)[..k]
    {
      handlerlist := catchlist[|catchlist| - 1].handlers;
      catchlist := catchlist[..|catchlist| - 1];
      frames := frames[..|frames| - 1];
    }

    /** unbind_catch, and then the jump to the catch at `c`. */
    method UnbindCatch(c: nat, p: Payload) returns (r: Arrival)
      requires Valid() && Fits(frames, Exit(c, p))
      modifies this
      ensures Went(old(Stack()), (old(State()), Exit(c, p)), r) && r.Jump?
      decreases |ticks|, PdlSize(specpdl), 3
    {
      hide Stacks, Settle, Land, Unbind, Ref, Cleaned, HandlersOf, PdlSize, From, Popped;
      ValidBased();
      ghost var d, st := Stack(), State();
      ghost var goal := From(d, (st, Exit(c, p)), |d.pdl|, prog);
      var catch := catchlist[c];
      var last := false;
      while !last
        invariant Less(st, State()) && Shorter(Stack(), d) && (last <==> |catchlist| == c)
        invariant Landing(Stack(), State(), c, p, goal, prog) && (last ==> handlerlist == catch.handlers)
        decreases |catchlist|, !last
      {
        last := |catchlist| - 1 == c;
        UnbindRound(d, Stack(), State(), c, p, goal, prog);
        r := PopCatch();
        if r.Jump? {
          return;
        }
      }
      backtraceList := catch.backlist;
      lispEvalDepth := catch.depth;
      r := Jump(c, p);
    }

    /** The search of Fthrow, for a tag other than nil: down the catch list to the innermost catch with the tag,
        or -1. */
    method FindTag(tag: Value) returns (c: int)
      requires Valid() && tag != Nil
      ensures c == FindCatch(frames, tag)
    {
      hide Stacks, FindCatch, HandlersOf;
      ValidBased();
      c := |catchlist|;
      assert frames[..c] == frames;
      while c > 0
        invariant 0 <= c <= |catchlist| && FindCatch(frames, tag) == FindCatch(frames[..c], tag)
      {
        c := c - 1;
        LastCatch(frames[..c + 1], frames[c], tag);
        assert frames[..c + 1][..c] == frames[..c];
        if catchlist[c].tag == tag {
          return;
        }
      }
      NoCatch(tag);
      assert frames[..0] == [];
      c := -1;
    }

    /** Fthrow, for a tag that may or may not be waited for. */
    method ThrowValue(tag: Value, v: Value) returns (r: Arrival)
      requires Valid()
      modifies this
      ensures Went(old(Stack()), (old(State()), ThrowTo(old(frames), prog, tag, v)), r)
      ensures r.Jump?
      decreases |ticks|, PdlSize(specpdl), if tag != Nil && FindCatch(frames, tag) >= 0 then 4 else 6
    {
      hide Stacks, Settle, Land, Unbind, Ref, Cleaned, FindCatch, HandlersOf;
      ValidBased();
      if tag != Nil {
        var c := FindTag(tag);
        if c >= 0 {
          CatchIsThere(frames, tag);
          r := UnbindCatch(c, Thrown(v));
          return;
        }
      }
      r := SignalValue("no-catch", Cons(tag, Cons(v, Nil)));
    }

    /** The search of Fsignal: down the handler list to the first condition-case with a clause that fits. */
    method FindClause(conditions: seq<Name>) returns (found: bool, c: nat, k: nat)
      requires Valid()
      modifies this`handlerlist
      ensures found <==> FindHandler(frames, conditions) >= 0
      ensures found ==> c == FindHandler(frames, conditions) && k == FirstMatch(frames[c].clauses, conditions)
    {
      ghost var i: nat := |frames|;
      assert frames[..i] == frames;
      while handlerlist != []
        invariant i <= |frames| && handlerlist == HandlersOf(frames[..i])
        invariant FindHandler(frames, conditions) == FindHandler(frames[..i], conditions)
        decreases |handlerlist|
      {
        LastHandler(frames[..i], conditions);
        var h := handlerlist[|handlerlist| - 1];
        assert h.catch < i && frames[h.catch] == frames[..i][h.catch] && frames[..i][..h.catch] == frames[..h.catch];
        k := FirstMatch(h.clauses, conditions);
        if k < Length(h.clauses) {
          return true, h.catch, k;
        }
        handlerlist := handlerlist[..|handlerlist| - 1];
        i := h.catch;
      }
      LastHandler(frames[..i], conditions);
      found, c, k := false, 0, 0;
    }

    /** Fsignal. */
    method SignalValue(sig: Name, data: Value) returns (r: Arrival)
      requires Valid()
      modifies this
      ensures Went(old(Stack()), (old(State()), SignalTo(old(frames), prog, sig, data)), r)
      ensures r.Jump?
      decreases |ticks|, PdlSize(specpdl), 5
    {
      hide Stacks, Settle, Land, Unbind, Ref, Cleaned;
      ValidBased();
      var allhandlers := handlerlist;
      var found, c, k := FindClause(Conditions(prog, sig));
      handlerlist := allhandlers;
      if found {
        r := UnbindCatch(c, Caught(k, Cons(Sym(sig), data)));
      } else {
        r := ThrowValue(TOP, T);
      }
    }

    /** specbind, for each of `ps`. */
    method BindAll(ps: Pairs)
      modifies this`vars, this`specpdl
      ensures Stack() == WithBindings(old(Stack()), old(vars), ps) && vars == BindVars(old(vars), ps)
    {
      for i := 0 to |ps|
        invariant specpdl == old(specpdl) + Records(old(vars), ps[..i]) && vars == BindVars(old(vars), ps[..i])
      {
        assert ps[..i + 1][..i] == ps[..i];
        Specbind(ps[i].0, ps[i].1);
      }
      assert ps[..|ps|] == ps;
    }

    method Specbind(x: Name, v: Value)
      modifies this`vars, this`specpdl
      ensures specpdl == old(specpdl) + [Binding(x, Lookup(old(vars), x))] && vars == old(vars)[x := v]
    {
      specpdl := specpdl + [Binding(x, Lookup(vars, x))];
      vars := vars[x := v];
    }

    /** The end of a form that has bound or protected something: back to `count`, with value `v`. */
    method Finish(count: nat, v: Value) returns (r: Arrival)
      requires Valid() && count <= |specpdl| && Stacks(frames, catchlist, count)
      modifies this
      ensures At(old(Stack()), From(old(Stack()), (old(State()), Normal(v)), count, prog), r)
      decreases |ticks|, PdlSize(specpdl), 2
    {
      hide Stacks, Settle, Land, Unbind, Ref, Cleaned;
      ValidBased();
      FromValue(Stack(), State(), v, count, prog);
      r := UnbindTo(count);
      if r.Result? {
        r := Result(v);
      }
    }

    /** A body with the variables of `ps` bound. */
    method EvalWithin(ps: Pairs, body: Expr) returns (r: Arrival)
      requires Valid()
      modifies this
      ensures Went(old(Stack()), RefWithin(ps, body, old(State()), old(frames), prog), r)
      decreases |ticks|, Size(body) + PdlSize(specpdl), 7
    {
      hide Stacks, Settle, Land, Unbind, Ref, Cleaned;
      ValidBased();
      var count := |specpdl|;
      ghost var d, st := Stack(), State();
      WithinStep(d, st.vars, ps, Ref(body, st.(vars := BindVars(st.vars, ps)), frames, prog), prog);
      BindAll(ps);
      r := EvalAndFinish(body, count);
    }

    /** Arguments in order. */
    method EvalArgs(args: Args) returns (r: Arrival, vs: seq<Value>)
      requires Valid()
      modifies this
      ensures var o := RefArgs(args, old(State()), old(frames), prog);
              && Went(old(Stack()), (o.0, o.1), r) && (r.Result? <==> o.1.Normal?)
              && (r.Result? ==> Stack() == old(Stack()) && State() == o.0 && vs == o.2)
      decreases |ticks|, ArgsSize(args) + PdlSize(specpdl), 4
    {
      hide Stacks, Settle, Land, Unbind, Ref, Cleaned, RefArgs, HandlersOf, From;
      ValidBased();
      ghost var d := Stack();
      ghost var o := RefArgs(args, State(), frames, prog);
      var left := args;
      vs := [];
      while left.Arg?
        invariant Stack() == d && Less(old(State()), State()) && ArgsSize(left) <= ArgsSize(args)
        invariant var q := RefArgs(left, State(), frames, prog); o.0 == q.0 && o.1 == q.1 && (q.1.Normal? ==> o.2 == vs + q.2)
        decreases left
      {
        RefArgsOf(left, State(), frames, prog);
        r := Eval(left.e);
        if r.Jump? {
          return;
        }
        assert vs + ([r.v] + RefArgs(left.rest, State(), frames, prog).2) == (vs + [r.v]) + RefArgs(left.rest, State(), frames, prog).2;
        vs := vs + [r.v];
        left := left.rest;
      }
      RefArgsOf(left, State(), frames, prog);
      assert vs + [] == vs;
      Arrived(Nil);
      r := Result(Nil);
    }

    /** The next variable of a let*. */
    method BindNext(left: Binds, ghost body: Expr, ghost count: nat) returns (r: Arrival)
      requires Valid() && left.Bind? && count <= |specpdl| && Stacks(frames, catchlist, count)
      modifies this
      ensures var d := old(Stack());
              var whole := From(d, RefLetX(left, body, old(State()), d.ctx, prog), count, prog);
              if r.Jump? then At(d, whole, r)
              else
                && |specpdl| == |d.pdl| + 1 && Stack() == d.(pdl := specpdl) && specpdl[..|d.pdl|] == d.pdl
                && Valid() && PdlSize(specpdl) == PdlSize(d.pdl)
                && From(Stack(), RefLetX(left.rest, body, State(), frames, prog), count, prog) == whole
      ensures Less(old(State()), State())
      decreases |ticks|, BindsSize(left) + PdlSize(specpdl), 4
    {
      hide Stacks, Settle, Land, Unbind, Ref, Cleaned;
      ValidBased();
      ghost var d := Stack();
      LetXStep(d, State(), left, body, count, prog);
      r := Eval(left.init);
      if r.Result? {
        assert specpdl == d.pdl;
        Specbind(left.x, r.v);
      }
    }

    /** let*. */
    method EvalLetX(binds: Binds, body: Expr) returns (r: Arrival)
      requires Valid()
      modifies this
      ensures Went(old(Stack()), RefLetX(binds, body, old(State()), old(frames), prog), r)
      decreases |ticks|, 1 + BindsSize(binds) + Size(body) + PdlSize(specpdl), 3
    {
      hide Stacks, Settle, Land, Unbind, Ref, Cleaned;
      ValidBased();
      ghost var d := Stack();
      ghost var goal := From(d, RefLetX(binds, body, State(), frames, prog), |d.pdl|, prog);
      var count := |specpdl|;
      var left := binds;
      assert d.pdl == d.pdl[..count];
      while left.Bind?
        invariant count <= |specpdl| && d == Stack().(pdl := specpdl[..count]) && Valid()
        invariant PdlSize(specpdl) == PdlSize(d.pdl) && Less(old(State()), State())
        invariant BindsSize(left) <= BindsSize(binds)
        invariant Stacks(frames, catchlist, count)
        invariant From(Stack(), RefLetX(left, body, State(), frames, prog), count, prog) == goal
        decreases left
      {
        LeftPrefix(Stack(), count, goal);
        ghost var pdl := specpdl;
        r := BindNext(left, body, count);
        if r.Jump? {
          return;
        }
        assert specpdl[..count] == specpdl[..|pdl|][..count] == pdl[..count];
        left := left.rest;
      }
      LeftPrefix(Stack(), count, goal);
      r := EvalAndFinish(body, count);
    }

    /** A body, and then back to `count`. */
    method EvalAndFinish(body: Expr, count: nat) returns (r: Arrival)
      requires Valid() && count <= |specpdl| && Stacks(frames, catchlist, count)
      modifies this
      ensures At(old(Stack()), From(old(Stack()), Ref(body, old(State()), old(frames), prog), count, prog), r)
      decreases |ticks|, Size(body) + PdlSize(specpdl), 6
    {
      hide Stacks, Settle, Land, Unbind, Ref, Cleaned;
      ValidBased();
      ghost var e := Stack();
      ghost var o := Ref(body, State(), frames, prog);
      if o.1.Exit? {
        FromExit(e, o, count, prog);
      } else {
        FromDone(e, o.0, o.1.v, |e.pdl|, prog);
      }
      r := Eval(body);
      if r.Result? {
        assert specpdl == e.pdl;
        r := Finish(count, r.v);
      }
    }

    /** unwind-protect. */
    method EvalUnwindProtect(body: Expr, cleanup: Expr) returns (r: Arrival)
      requires Valid()
      modifies this
      ensures Went(old(Stack()), Cleaned(Ref(body, old(State()), old(frames), prog), cleanup, old(frames), prog), r)
      decreases |ticks|, 2 + Size(body) + Size(cleanup) + PdlSize(specpdl), 3
    {
      hide Stacks, Settle, Land, Unbind, Ref, Cleaned;
      ValidBased();
      var count := |specpdl|;
      ProtectStep(Stack(), cleanup, Ref(body, State(), frames, prog), prog);
      specpdl := specpdl + [Cleanup(cleanup)];
      r := EvalAndFinish(body, count);
    }

    lemma WentDone(d: Dump, o: (St, Out), r: Arrival)
      requires Sound(d) && Fits(d.ctx, o.1) && Went(d, o, r)
      ensures r.Result? <==> o.1.Normal?
      ensures r.Result? ==> Stack() == d && State() == o.0 && r.v == o.1.v
    {
      if o.1.Normal? {
        FromDone(d, o.0, o.1.v, |d.pdl|, prog);
        assert d.pdl == d.pdl[..|d.pdl|];
      }
    }

    lemma Arrived(v: Value)
      requires Valid()
      ensures Fits(frames, Normal(v)) && Went(Stack(), (State(), Normal(v)), Result(v))
    {
      FromDone(Stack(), State(), v, |specpdl|, prog);
      assert specpdl == specpdl[..|specpdl|];
    }

    method EvalSetq(x: Name, a: Expr) returns (r: Arrival)
      requires Valid()
      modifies this
      ensures Went(old(Stack()), Ref(Setq(x, a), old(State()), old(frames), prog), r)
      decreases |ticks|, Size(Setq(x, a)) + PdlSize(specpdl), 3
    {
      hide Stacks, Settle, Land, Unbind;
      ValidBased();
      r := Eval(a);
      if r.Result? {
        vars := vars[x := r.v];
        Arrived(r.v);
      }
    }

    method EvalThen(a: Expr, b: Expr) returns (r: Arrival)
      requires Valid()
      modifies this
      ensures Went(old(Stack()), Ref(Then(a, b), old(State()), old(frames), prog), r)
      decreases |ticks|, Size(Then(a, b)) + PdlSize(specpdl), 3
    {
      hide Stacks, Settle, Land, Unbind;
      ValidBased();
      r := Eval(a);
      if r.Result? {
        r := Eval(b);
      }
    }

    method EvalIf(a: Expr, b: Expr, c: Expr) returns (r: Arrival)
      requires Valid()
      modifies this
      ensures Went(old(Stack()), Ref(If(a, b, c), old(State()), old(frames), prog), r)
      decreases |ticks|, Size(If(a, b, c)) + PdlSize(specpdl), 3
    {
      hide Stacks, Settle, Land, Unbind;
      ValidBased();
      r := Eval(a);
      if r.Result? {
        if r.v != Nil {
          r := Eval(b);
        } else {
          r := Eval(c);
        }
      }
    }

    /** QUIT: has the user asked to quit? */
    method PollQuit() returns (quit: bool)
      modifies this`ticks
      ensures (State(), quit) == Poll(old(State()))
    {
      if |ticks| == 0 {
        return true;
      }
      quit := ticks[0];
      ticks := ticks[1..];
    }

    method EvalWhile(a: Expr, b: Expr) returns (r: Arrival)
      requires Valid()
      modifies this
      ensures Went(old(Stack()), Ref(While(a, b), old(State()), old(frames), prog), r)
      decreases |ticks|, Size(While(a, b)) + PdlSize(specpdl), 3
    {
      hide Stacks, Settle, Land, Unbind;
      ValidBased();
      ghost var d := Stack();
      ghost var o := Ref(While(a, b), State(), frames, prog);
      while true
        invariant Stack() == d && Less(old(State()), State())
        invariant Ref(While(a, b), State(), frames, prog) == o
        decreases |ticks|
      {
        r := Eval(a);
        if r.Jump? {
          return;
        }
        if r.v == Nil {
          return;
        }
        var quit := PollQuit();
        if quit {
          r := SignalValue("quit", Nil);
          return;
        }
        r := Eval(b);
        if r.Jump? {
          return;
        }
      }
    }

    method EvalLet(binds: Binds, body: Expr) returns (r: Arrival)
      requires Valid()
      modifies this
      ensures Went(old(Stack()), Ref(Let(binds, body), old(State()), old(frames), prog), r)
      decreases |ticks|, Size(Let(binds, body)) + PdlSize(specpdl), 3
    {
      hide Stacks, Settle, Land, Unbind;
      ValidBased();
      var temps: seq<Value>;
      r, temps := EvalArgs(Inits(binds));
      if r.Result? {
        r := EvalWithin(Zip(Names(binds), temps), body);
      }
    }

    method EvalThrow(a: Expr, b: Expr) returns (r: Arrival)
      requires Valid()
      modifies this
      ensures Went(old(Stack()), Ref(Throw(a, b), old(State()), old(frames), prog), r)
      decreases |ticks|, Size(Throw(a, b)) + PdlSize(specpdl), 3
    {
      hide Stacks, Settle, Land, Unbind;
      ValidBased();
      r := Eval(a);
      if r.Result? {
        var tag := r.v;
        r := Eval(b);
        if r.Result? {
          r := ThrowValue(tag, r.v);
        }
      }
    }

    method EvalSignal(sig: Name, a: Expr) returns (r: Arrival)
      requires Valid()
      modifies this
      ensures Went(old(Stack()), Ref(Signal(sig, a), old(State()), old(frames), prog), r)
      decreases |ticks|, Size(Signal(sig, a)) + PdlSize(specpdl), 3
    {
      hide Stacks, Settle, Land, Unbind;
      ValidBased();
      r := Eval(a);
      if r.Result? {
        r := SignalValue(sig, r.v);
      }
    }

    /** Put a catch on the catch list, and on the handler list if it is a condition-case. */
    method SetUp(ghost f: Frame, handler: Option<Clauses>, tag: Value)
      requires tag == TagOf(f) && handler == if f.HandlerFrame? then Some(f.clauses) else None
      requires |catchlist| == |frames|
      modifies this`catchlist, this`handlerlist, this`frames
      ensures Stack() == SetUpAt(old(Stack()), f)
    {
      var here := |catchlist|;
      catchlist := catchlist + [CatchTag(tag, |specpdl|, handlerlist, backtraceList, lispEvalDepth)];
      if handler.Some? {
        handlerlist := handlerlist + [Handler(handler.value, here)];
      }
      frames := frames + [f];
    }

    /** Take it off again when the body has given a value. */
    method TakeDown(ghost d: Dump, ghost f: Frame, handler: Option<Clauses>)
      requires Stack() == SetUpAt(d, f) && |d.catches| == |d.ctx|
      requires handler == if f.HandlerFrame? then Some(f.clauses) else None
      modifies this`catchlist, this`handlerlist, this`frames
      ensures Stack() == d
    {
      catchlist := catchlist[..|catchlist| - 1];
      if handler.Some? {
        handlerlist := handlerlist[..|handlerlist| - 1];
      }
      frames := frames[..|frames| - 1];
    }

    /** A body with a catch or condition-case around it, and whether an exit has landed at it. */
    method EvalUnder(ghost f: Frame, handler: Option<Clauses>, tag: Value, body: Expr)
        returns (r: Arrival, landed: bool)
      requires Valid() && tag == TagOf(f) && handler == if f.HandlerFrame? then Some(f.clauses) else None
      modifies this
      ensures var d := old(Stack());
              var o := Ref(body, old(State()), d.ctx + [f], prog);
              && (landed <==> o.1.Exit? && o.1.level == |d.ctx|)
              && if landed then Stack() == d && State() == o.0 && r == Jump(|d.ctx|, o.1.p)
                 else Fits(d.ctx, o.1) && Went(d, o, r)
      decreases |ticks|, Size(body) + PdlSize(specpdl), 6
    {
      hide Stacks, Settle, Land, Unbind, Ref, Cleaned;
      ValidBased();
      var here := |catchlist|;
      ghost var d := Stack();
      assert Based(frames + [f]);
      CatchSound(d, f);
      CatchStep(d, f, Ref(body, State(), frames + [f], prog), prog);
      SetUp(f, handler, tag);
      r := Eval(body);
      landed := r.Jump? && r.level == here;
      if r.Result? {
        TakeDown(d, f, handler);
        Arrived(r.v);
      }
    }

    /** catch. */
    method EvalCatch(a: Expr, body: Expr) returns (r: Arrival)
      requires Valid()
      modifies this
      ensures Went(old(Stack()), Ref(Catch(a, body), old(State()), old(frames), prog), r)
      decreases |ticks|, Size(Catch(a, body)) + PdlSize(specpdl), 3
    {
      hide Stacks, Settle, Land, Unbind;
      ValidBased();
      r := Eval(a);
      if r.Result? {
        var landed;
        r, landed := EvalUnder(CatchFrame(r.v), None, r.v, body);
        if landed {
          Arrived(r.p.v);
          r := Result(r.p.v);
        }
      }
    }

    /** condition-case. */
    method EvalConditionCase(x: Option<Name>, body: Expr, clauses: Clauses) returns (r: Arrival)
      requires Valid()
      modifies this
      ensures Went(old(Stack()), Ref(ConditionCase(x, body, clauses), old(State()), old(frames), prog), r)
      decreases |ticks|, Size(ConditionCase(x, body, clauses)) + PdlSize(specpdl), 3
    {
      hide Stacks, Settle, Land, Unbind;
      ValidBased();
      ghost var o := Ref(body, State(), frames + [HandlerFrame(clauses)], prog);
      assert Fits(frames + [HandlerFrame(clauses)], o.1);
      var landed;
      r, landed := EvalUnder(HandlerFrame(clauses), Some(clauses), Nil, body);
      if landed {
        r := EvalWithin(if x.Some? then [(x.value, r.p.v)] else [], Nth(clauses, r.p.k));
      }
    }

    /** The loop of funcall_lambda: bind the parameters to the arguments.  False if their number is
        wrong, in which case some may have been bound. */
    method BindParams(params: seq<Param>, vs: seq<Value>) returns (ok: bool)
      modifies this`vars, this`specpdl
      ensures var m := Match(params, vs, 0, false, false);
              && ok == m.1 && Stack() == WithBindings(old(Stack()), old(vars), m.0) && vars == BindVars(old(vars), m.0)
    {
      var i, optional, rest := 0, false, false;
      ghost var done: Pairs := [];
      ghost var m := Match(params, vs, 0, false, false);
      assert params[0..] == params;
      for j := 0 to |params|
        invariant 0 <= i <= |vs|
        invariant m.1 == Match(params[j..], vs, i, optional, rest).1
        invariant m.0 == done + Match(params[j..], vs, i, optional, rest).0
        invariant specpdl == old(specpdl) + Records(old(vars), done) && vars == BindVars(old(vars), done)
      {
        assert params[j..][1..] == params[j + 1..] && params[j..][0] == params[j];
        if params[j] == AndRest {
          rest := true;
        } else if params[j] == AndOptional {
          optional := true;
        } else if rest || i < |vs| || optional {
          var v := if rest then List(vs[i..]) else if i < |vs| then vs[i] else Nil;
          assert (done + [(params[j].x, v)])[..|done|] == done;
          Specbind(params[j].x, v);
          done := done + [(params[j].x, v)];
          i := if rest then |vs| else if i < |vs| then i + 1 else i;
        } else {
          assert m.0 == done;
          return false;
        }
      }
      assert m.0 == done;
      ok := i == |vs|;
    }

    /** funcall_lambda. */
    method ApplyLambda(f: Name, vs: seq<Value>) returns (r: Arrival)
      requires Valid() && f in prog.fns
      modifies this
      ensures Went(old(Stack()), RefApply(f, vs, old(State()), old(frames), prog), r)
      decreases |ticks|, Size(prog.fns[f].body) + PdlSize(specpdl), 7
    {
      hide Stacks, Settle, Land, Unbind, Ref, Cleaned;
      ValidBased();
      var body := prog.fns[f].body;
      var count := |specpdl|;
      ghost var d, st := Stack(), State();
      ghost var m := Match(prog.fns[f].params, vs, 0, false, false);
      ghost var bound := st.(vars := BindVars(st.vars, m.0));
      ghost var o := if m.1 then Ref(body, bound, frames, prog)
                     else (bound, SignalTo(frames, prog, "wrong-number-of-arguments", Cons(Func(f), Cons(Int(|vs|), Nil))));
      WithinStep(d, st.vars, m.0, o, prog);
      RestoredSelf(st.vars, m.0);
      var ok := BindParams(prog.fns[f].params, vs);
      if ok {
        r := EvalAndFinish(body, count);
      } else {
        FromExit(Stack(), o, count, prog);
        r := SignalValue("wrong-number-of-arguments", Cons(Func(f), Cons(Int(|vs|), Nil)));
      }
    }

    /** A function call. */
    method EvalCall(f: Name, args: Args) returns (r: Arrival)
      requires Valid()
      modifies this
      ensures Went(old(Stack()), Ref(Call(f, args), old(State()), old(frames), prog), r)
      decreases |ticks|, Size(Call(f, args)) + PdlSize(specpdl), 3
    {
      hide Stacks, Settle, Land, Unbind, Ref, Cleaned;
      ValidBased();
      RefCall(f, args, State(), frames, prog);
      var quit := PollQuit();
      if quit {
        r := SignalValue("quit", Nil);
      } else if f !in prog.fns {
        r := SignalValue("void-function", Cons(Sym(f), Nil));
      } else {
        r := CallDefined(f, args);
      }
    }

    method CallDefined(f: Name, args: Args) returns (r: Arrival)
      requires Valid() && f in prog.fns
      modifies this
      ensures var o := RefArgs(args, old(State()), old(frames), prog);
              Went(old(Stack()), if o.1.Exit? then (o.0, o.1) else RefApply(f, o.2, o.0, old(frames), prog), r)
      decreases |ticks|, ArgsSize(args) + PdlSize(specpdl) + Size(prog.fns[f].body), 8
    {
      hide Stacks, Settle, Land, Unbind, Ref, Cleaned;
      ValidBased();
      var vs: seq<Value>;
      r, vs := EvalArgs(args);
      if r.Result? {
        r := ApplyLambda(f, vs);
      }
    }

    method EvalForm(e: Expr) returns (r: Arrival)
      requires Valid() && !e.Quote? && !e.Var?
      modifies this
      ensures Went(old(Stack()), Ref(e, old(State()), old(frames), prog), r)
      decreases |ticks|, Size(e) + PdlSize(specpdl), 4
    {
      hide Stacks, Settle, Land, Unbind;
      ValidBased();
      match e
      case Setq(x, a) => r := EvalSetq(x, a);
      case Then(a, b) => r := EvalThen(a, b);
      case If(a, b, c) => r := EvalIf(a, b, c);
      case While(a, b) => r := EvalWhile(a, b);
      case Let(bs, b) => r := EvalLet(bs, b);
      case LetX(bs, b) => r := EvalLetX(bs, b);
      case Call(f, args) => r := EvalCall(f, args);
      case UnwindProtect(b, c) => r := EvalUnwindProtect(b, c);
      case Catch(a, b) => r := EvalCatch(a, b);
      case Throw(a, b) => r := EvalThrow(a, b);
      case ConditionCase(x, b, cs) => r := EvalConditionCase(x, b, cs);
      case Signal(sig, a) => r := EvalSignal(sig, a);
    }

    /** Feval: the depth and the backtrace are as before when the form gives a value. */
    method Eval(e: Expr) returns (r: Arrival)
      requires Valid()
      modifies this
      ensures var o := Ref(e, old(State()), old(frames), prog);
              && Went(old(Stack()), o, r)
              && (r.Result? <==> o.1.Normal?)
              && (r.Result? ==> Stack() == old(Stack()) && State() == o.0 && r.v == o.1.v)
      decreases |ticks|, Size(e) + PdlSize(specpdl), 5
    {
      hide Stacks, Settle, Land, Unbind;
      ValidBased();
      ghost var d, o := Stack(), Ref(e, State(), frames, prog);
      if e.Quote? {
        Arrived(e.v);
        r := Result(e.v);
      } else if e.Var? {
        if e.x in vars {
          Arrived(vars[e.x]);
          r := Result(vars[e.x]);
        } else {
          r := SignalValue("void-variable", Cons(Sym(e.x), Nil));
        }
      } else {
        lispEvalDepth := lispEvalDepth + 1;
        backtraceList := backtraceList + [e];
        ghost var inside := Stack();
        r := EvalForm(e);
        WentDone(inside, o, r);
        if r.Result? {
          lispEvalDepth := lispEvalDepth - 1;
          backtraceList := backtraceList[..|backtraceList| - 1];
          Arrived(r.v);
        }
      }
    }

    /** init_eval: nothing bound, nothing waiting. */
    constructor (prog: Program, vars: map<Name, Value>, ticks: seq<bool>)
      ensures this.prog == prog && State() == St(vars, ticks, []) && Idle()
    {
      this.prog, this.vars, this.ticks, this.trace := prog, vars, ticks, [];
      specpdl, catchlist, handlerlist, backtraceList, lispEvalDepth, frames := [], [], [], [], 0, [];
    }

    ghost predicate Idle()
      reads this
    {
      Stack() == Dump([], [], [], [], [], 0)
    }

    /** A form run by the command loop, inside its catch for top-level: the variables, the cleanup
        forms run and the value are what the form means, by the law of its form, and whatever exits there have
        been, every stack is empty again. */
    method TopLevel(e: Expr) returns (v: Value)
      requires Idle()
      modifies this
      ensures Idle()
      ensures var o := Ref(e, old(State()), [CatchFrame(TOP)], prog);
              && State() == o.0
              && v == if o.1.Normal? then o.1.v else o.1.p.v
      ensures FormLaws.Lawful(e, old(State()), prog, State(), v)
    {
      hide Stacks, Settle, Land, Unbind, Ref, Cleaned, From, FormLaws.Lawful;
      FormLaws.AllLawful(e, State(), prog);
      SetUp(CatchFrame(TOP), None, TOP);
      TopLevelStep(Stack(), Ref(e, State(), [CatchFrame(TOP)], prog), prog);
      var r := Eval(e);
      if r.Result? {
        TakeDown(Dump([], [], [], [], [], 0), CatchFrame(TOP), None);
        v := r.v;
      } else {
        v := r.p.v;
      }
    }
  }
}
