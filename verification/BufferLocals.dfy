/** Buffer-local variables: the one-entry cache behind symbol-value, set and their relatives, and
    the plain "default and local values" it stands for. */
module BufferLocals {
  import opened LocalValues

  // ---- the specification: sessions ----

  datatype Op =
    | SetBuffer(b: Buffer)
    | KillAllLocals
    | SymbolValue(s: Symbol)
    | DefaultValue(s: Symbol)
    | Set(s: Symbol, x: Value)
    | SetDefault(s: Symbol, x: Value)
    | MakeAll(s: Symbol)
    | MakeLocal(s: Symbol)
    | KillLocal(s: Symbol)

  ghost predicate About(op: Op, s: Symbol) {
    !op.SetBuffer? && !op.KillAllLocals? && op.s == s
  }

  /** What `op`, done in buffer `cur`, makes of the variable `v` of symbol `s`. */
  ghost function Effect(op: Op, cur: Buffer, s: Symbol, v: Var<Buffer>): Var<Buffer> {
    if op.KillAllLocals? then SpecKillLocal(v, cur)
    else if !About(op, s) then v
    else match op
      case Set(_, x) => if s.constant then v else SpecSet(v, cur, x)
      case SetDefault(_, x) => if s.constant && v.kind == Plain then v else v.(dflt := x)
      case MakeAll(_) => if s.constant then v else SpecMakeAll(v)
      case MakeLocal(_) => if s.constant then v else SpecMakeLocal(v, cur)
      case KillLocal(_) => SpecKillLocal(v, cur)
      case _ => v
  }

  /** What `op`, done in buffer `cur`, returns when its variable is `v`. */
  ghost function Outcome(op: Op, cur: Buffer, v: Var<Buffer>): Result {
    match op
    case SymbolValue(_) => Read(Get(v, cur))
    case DefaultValue(_) => if v.kind == Plain then Read(v.dflt) else Ok(v.dflt)
    case Set(s, x) => if s.constant then SettingConstant else Ok(x)
    case SetDefault(s, x) => if s.constant && v.kind == Plain then SettingConstant else Ok(x)
    case MakeAll(s) => if s.constant then MayNotBeLocal else Done
    case MakeLocal(s) => if s.constant then MayNotBeLocal else Done
    case _ => Done
  }

  /** The current buffer after the first `n` operations. */
  ghost function CurrentAfter(ops: seq<Op>, n: nat, cur: Buffer): Buffer
    requires n <= |ops|
  {
    if n == 0 then cur
    else if ops[n - 1].SetBuffer? then ops[n - 1].b
    else CurrentAfter(ops, n - 1, cur)
  }

  /** The variable of `s` after the first `n` operations. */
  ghost function VarAfter(ops: seq<Op>, n: nat, cur: Buffer, s: Symbol, v: Var<Buffer>): Var<Buffer>
    requires n <= |ops|
  {
    if n == 0 then v
    else Effect(ops[n - 1], CurrentAfter(ops, n - 1, cur), s, VarAfter(ops, n - 1, cur, s, v))
  }

  /** A plain variable is local nowhere. */
  ghost predicate Sound(v: Var<Buffer>) {
    v.kind == Plain ==> v.locals == map[]
  }

  /** What each operation does, seen from buffer `b`.  Setting gives the current buffer the value, and other buffers too
      if the variable is not local here and they see the default; set-default is seen where there is no local value;
      becoming local changes no value that there is, and makes a missing one nil; killing goes back to the default. */
  lemma SeenFrom(op: Op, cur: Buffer, s: Symbol, v: Var<Buffer>, b: Buffer)
    requires Sound(v) && !s.constant
    ensures var w := Effect(op, cur, s, v);
            match op
            case Set(t, x) => t == s ==>
              && Get(w, cur) == x
              && Get(w, b) == if b != cur && (v.kind == All || cur in v.locals || b in v.locals) then Get(v, b) else x
            case SetDefault(t, x) => t == s ==> w.dflt == x && Get(w, b) == if b in v.locals then Get(v, b) else x
            case MakeAll(t) => t == s ==>
              && w.kind == All && (v.kind != Plain || v.dflt != Unbound ==> w.dflt == v.dflt && Get(w, b) == Get(v, b))
              && (v.kind == Plain && v.dflt == Unbound ==> w.dflt == Nil && Get(w, b) == Nil)
            case MakeLocal(t) => t == s ==>
              && (v.kind == All || (w.kind == Some && cur in w.locals))
              && (v.kind != Plain || v.dflt != Unbound ==> w.dflt == v.dflt && Get(w, b) == Get(v, b))
              && (v.kind == Plain && v.dflt == Unbound ==> w.dflt == Nil && Get(w, b) == Nil)
            case KillLocal(t) => t == s ==>
              cur !in w.locals && w.dflt == v.dflt && Get(w, b) == if b == cur then v.dflt else Get(v, b)
            case KillAllLocals => cur !in w.locals && w.dflt == v.dflt && Get(w, b) == if b == cur then v.dflt else Get(v, b)
            case _ => w == v
    ensures !op.KillAllLocals? && !About(op, s) ==> Effect(op, cur, s, v) == v
  {
  }

  /** What other buffers do never touches a local value: as long as `b` is not made current, its value
      of `s` stays. */
  lemma {:induction false} LocalIsPrivate(ops: seq<Op>, n: nat, cur: Buffer, b: Buffer, s: Symbol, v: Var<Buffer>)
    requires n <= |ops| && Sound(v) && b in v.locals && cur != b
    requires forall i :: 0 <= i < n ==> ops[i] != Op.SetBuffer(b)
    ensures CurrentAfter(ops, n, cur) != b && Sound(VarAfter(ops, n, cur, s, v))
    ensures b in VarAfter(ops, n, cur, s, v).locals && Get(VarAfter(ops, n, cur, s, v), b) == v.locals[b]
  {
    if n > 0 {
      LocalIsPrivate(ops, n - 1, cur, b, s, v);
    }
  }

  /** A variable that setting makes local keeps what `b` set it to, whatever goes on elsewhere. */
  lemma AutoLocalRemembers(ops: seq<Op>, b: Buffer, c: Buffer, s: Symbol, v: Var<Buffer>, x: Value)
    requires v.kind == All && !s.constant && b != c
    requires forall i :: 0 <= i < |ops| ==> ops[i] != Op.SetBuffer(b)
    ensures var v' := Effect(Op.Set(s, x), b, s, v);
            Get(VarAfter(ops, |ops|, c, s, v'), b) == x
    ensures forall d :: d != b ==> Get(Effect(Op.Set(s, x), b, s, v), d) == Get(v, d)
  {
    LocalIsPrivate(ops, |ops|, c, b, s, Effect(Op.Set(s, x), b, s, v));
  }

  /** The operations among the first `n` that can matter to `s`. */
  ghost function Mattering(ops: seq<Op>, n: nat, s: Symbol): seq<Op>
    requires n <= |ops|
  {
    if n == 0 then []
    else
      var op := ops[n - 1];
      var r := Mattering(ops, n - 1, s);
      if op.SetBuffer? || op.KillAllLocals? || About(op, s) then r + [op] else r
  }

  lemma {:induction false} PrefixRuns(ops: seq<Op>, more: seq<Op>, n: nat, cur: Buffer, s: Symbol, v: Var<Buffer>)
    requires n <= |ops|
    ensures CurrentAfter(ops + more, n, cur) == CurrentAfter(ops, n, cur)
    ensures VarAfter(ops + more, n, cur, s, v) == VarAfter(ops, n, cur, s, v)
  {
    if n > 0 {
      PrefixRuns(ops, more, n - 1, cur, s, v);
    }
  }

  /** Variables do not interfere: what a session makes of `s` is what its operations on `s` alone,
      its changes of buffer and its kill-all-local-variables make of it. */
  lemma {:induction false} Independent(ops: seq<Op>, n: nat, cur: Buffer, s: Symbol, v: Var<Buffer>)
    requires n <= |ops|
    ensures var own := Mattering(ops, n, s);
            && CurrentAfter(own, |own|, cur) == CurrentAfter(ops, n, cur)
            && VarAfter(own, |own|, cur, s, v) == VarAfter(ops, n, cur, s, v)
  {
    if n > 0 {
      Independent(ops, n - 1, cur, s, v);
      var r := Mattering(ops, n - 1, s);
      PrefixRuns(r, [ops[n - 1]], |r|, cur, s, v);
    }
  }

  // ---- the representation ----

  /** The car of a cons: the symbol an alist element is for, or the element a default cell currently
      points to. */
  datatype Car = Sym(s: Symbol) | Elt(e: Pair)

  class Pair {
    var car: Car
    var cdr: Value

    constructor (car: Car, cdr: Value)
      ensures this.car == car && this.cdr == cdr
    {
      this.car, this.cdr := car, cdr;
    }

    /** A cell whose car is itself. */
    constructor Loop(cdr: Value)
      ensures car == Elt(this) && this.cdr == cdr
    {
      this.car := Elt(this);
      this.cdr := cdr;
    }
  }

  class Buffer {
    var alist: seq<Pair>   // local_var_alist

    constructor ()
      ensures alist == []
    {
      alist := [];
    }
  }

  /** A symbol and the list (REALVALUE BUFFER CURRENT-ALIST-ELEMENT . DEFAULT-VALUE) that is its
      value once it may be local: `realvalue`, `cached`, and the cell `cell` with the current element in
      its car and the default in its cdr.  A plain symbol has its value in `realvalue`. */
  class Symbol {
    const constant: bool          // nil and t
    var kind: Kind
    var realvalue: Value
    var cached: Buffer?
    var cell: Pair?
    ghost var elems: map<Buffer, Pair>   // its element in each buffer's alist
    ghost var cells: set<Pair>           // every pair made for it
    ghost var v: Var<Buffer>                     // the variable it stands for

    constructor (constant: bool, value: Value)
      ensures this.constant == constant && kind == Plain && realvalue == value
      ensures cached == null && cell == null && elems == map[] && cells == {} && v == Var(Plain, value, map[])
    {
      this.constant, kind, realvalue, cached, cell := constant, Plain, value, null, null;
      elems, cells, v := map[], {}, Var(Plain, value, map[]);
    }

    /** The cache stands for the variable `v`. */
    ghost predicate Rep()
      reads this, cells
    {
      && kind == v.kind
      && elems.Values <= cells
      && if kind == Plain then realvalue == v.dflt && v.locals == map[] && elems == map[]
         else
           && cell != null && cell in cells && cell.car.Elt? && cell.car.e in cells
           && (forall p :: p in cells && p != cell ==> p.car == Sym(this))
           && (forall b :: b in elems ==> elems[b] != cell)
           && (forall b, c :: b in elems && c in elems && b != c ==> elems[b] != elems[c])
           && cell.cdr == v.dflt
           && (cell.car.e == cell ==> realvalue == cell.cdr)
           && (cached != null ==> cell.car.e == if cached in elems then elems[cached] else cell)
           && (cached == null ==> forall b :: b in elems ==> elems[b] != cell.car.e)
           && v.locals.Keys == elems.Keys
           && (forall b :: b in elems ==>
                 v.locals[b] == if elems[b] == cell.car.e then realvalue else elems[b].cdr)
    }

    lemma ElementCar(p: Pair)
      requires Rep() && kind != Plain && p in cells && p != cell
      ensures p.car == Sym(this)
    {
    }

    ghost predicate Gone(b: Buffer)
      reads this`elems
    {
      b !in elems
    }

    /** "Swap out" the cached buffer: its value goes back to its element. */
    method WriteBack()
      requires Rep() && kind != Plain
      modifies cell.car.e`cdr
      ensures Rep() && cell.car.e.cdr == realvalue
    {
      cell.car.e.cdr := realvalue;
    }

    /** Encache buffer `b`, whose element is `tem`. */
    method Encache(b: Buffer, tem: Pair)
      requires Rep() && kind != Plain && cell.car.e.cdr == realvalue
      requires tem == if b in elems then elems[b] else cell
      modifies this`realvalue, this`cached, cell`car
      ensures Rep() && cached == b && realvalue == Get(v, b) && cell.car == Elt(tem)
    {
      cell.car := Elt(tem);
      cached := b;
      realvalue := tem.cdr;
    }

    /** Store into the variable as the cached buffer sees it.  If that is the default, the default
        is set right now. */
    method Store(x: Value)
      requires cell != null && cell.car.Elt?
      modifies this`realvalue, cell`cdr
      ensures realvalue == x && cell.cdr == if cell.car.e == cell then x else old(cell.cdr)
    {
      if cell.car.e == cell {
        cell.cdr := x;
      }
      realvalue := x;
    }

    method SetDefault(x: Value)
      requires Rep()
      modifies this`realvalue, this`v, cells`cdr
      ensures Rep() && v == old(v).(dflt := x)
    {
      v := v.(dflt := x);
      if kind == Plain {
        realvalue := x;
      } else {
        cell.cdr := x;
        if cell.car.e == cell {
          realvalue := x;
        }
      }
    }

    /** set when nothing needs to be swapped. */
    method SetCached(b: Buffer, x: Value)
      requires Rep() && (kind == Plain || (kind == Some && cached == b))
      modifies this`realvalue, this`v, cells`cdr
      ensures Rep() && v == SpecSet(old(v), b, x)
    {
      v := SpecSet(v, b, x);
      if kind == Plain {
        realvalue := x;
      } else {
        Store(x);
      }
    }

    /** Encache buffer `b` without bringing in its value, which is about to be overwritten by `x`;
        `tem` is its element, or the default cell if it sees the default and may do so. */
    method StoreInto(b: Buffer, tem: Pair, x: Value)
      requires Rep() && kind != Plain && cell.car.e.cdr == realvalue
      requires if b in elems then tem == elems[b] else kind == Some && tem == cell
      modifies this`realvalue, this`cached, this`v, cell
      ensures Rep() && v == SpecSet(old(v), b, x)
      ensures cell.car == Elt(tem) && cached == b
    {
      v := SpecSet(v, b, x);
      cell.car := Elt(tem);
      cached := b;
      Store(x);
    }

    /** The same, `tem` being a new element of `b`. */
    method StoreMade(b: Buffer, tem: Pair, x: Value)
      requires Rep() && kind == All && cell.car.e.cdr == realvalue
      requires b !in elems && tem !in cells && tem.car == Sym(this)
      modifies this`realvalue, this`cached, this`elems, this`cells, this`v, cell
      ensures Rep() && v == SpecSet(old(v), b, x)
      ensures cells == old(cells) + {tem} && cell.car == Elt(tem) && cached == b
      ensures elems == old(elems)[b := tem]
    {
      v := SpecSet(v, b, x);
      elems := elems[b := tem];
      cells := cells + {tem};
      cell.car := Elt(tem);
      cached := b;
      Store(x);
    }

    /** Give a plain variable its list of four, with `b` encached. */
    method MakeCache(k: Kind, b: Buffer?)
      requires Rep() && kind == Plain && k != Plain
      modifies this`kind, this`realvalue, this`cached, this`cell, this`cells, this`v
      ensures Rep() && v == Var(k, Bound(old(v).dflt), map[]) && cached == b && fresh(cells)
      ensures elems == old(elems) && cells == {cell}
      ensures kind == k && cell != null && cell.car == Elt(cell)
    {
      if realvalue == Unbound {
        realvalue := Nil;
      }
      cell := new Pair.Loop(realvalue);
      cached := b;
      kind := k;
      cells := {cell};
      v := Var(k, Bound(v.dflt), map[]);
    }

    /** A variable local in some buffers becomes local wherever it is set. */
    method BecomeAll()
      requires Rep() && kind == Some
      modifies this`kind, this`v
      ensures Rep() && v == SpecMakeAll(old(v))
    {
      v := v.(kind := All);
      kind := All;
    }

    /** Buffer `b` gets its own element `p`; if `b` is encached, it must be looked for again. */
    method AddLocal(b: Buffer, p: Pair)
      requires Rep() && kind == Some && b !in elems && p !in cells && p.car == Sym(this) && p.cdr == cell.cdr
      modifies this`cached, this`elems, this`cells, this`v
      ensures Rep() && v == SpecMakeLocal(old(v), b)
      ensures elems == old(elems)[b := p] && cells == old(cells) + {p} && cached in {old(cached), null}
    {
      v := SpecMakeLocal(v, b);
      elems := elems[b := p];
      cells := cells + {p};
      if cached == b {
        cached := null;
      }
    }

    /** The element of `b`, if any, is no longer in its alist; if `b` is encached, it must be looked
        for again. */
    method RemoveLocal(b: Buffer)
      requires Rep() && kind != Plain
      modifies this`cached, this`elems, this`v
      ensures Rep() && v == SpecKillLocal(old(v), b)
      ensures elems == old(elems) - {b} && cached in {old(cached), null}
    {
      v := SpecKillLocal(v, b);
      elems := elems - {b};
      if cached == b {
        cached := null;
      }
    }

    /** As kill-all-local-variables does it: if `b` is encached, encache it with the default. */
    method ResetLocal(b: Buffer)
      requires Rep() && kind != Plain
      modifies this`realvalue, this`cached, this`elems, this`v, cell`car
      ensures Rep() && v == SpecKillLocal(old(v), b)
      ensures elems == old(elems) - {b} && cached == old(cached) && cell.car.Elt?
    {
      v := SpecKillLocal(v, b);
      elems := elems - {b};
      if cached == b {
        cell.car := Elt(cell);
        cached := b;
        realvalue := cell.cdr;
      }
    }
  }

  /** The elements `e0` of the variable `v0` are as they were, or the one for `b` is gone. */
  ghost predicate Killed(e0: map<Buffer, Pair>, v0: Var<Buffer>, e: map<Buffer, Pair>, v: Var<Buffer>, b: Buffer) {
    if b in e then e == e0 && v == v0 else e == e0 - {b} && v == SpecKillLocal(v0, b)
  }

  lemma KilledTwice(e0: map<Buffer, Pair>, v0: Var<Buffer>, e: map<Buffer, Pair>, v: Var<Buffer>, b: Buffer)
    requires Killed(e0, v0, e, v, b)
    ensures Killed(e0, v0, e - {b}, SpecKillLocal(v, b), b)
    ensures e - {b} == e0 - {b}
  {
    if b !in e {
      assert e - {b} == e && v.locals - {b} == v.locals;
    }
  }

  // ---- the symbols and buffers of a session ----

  class World {
    var current: Buffer
    ghost var symbols: set<Symbol>
    ghost var buffers: set<Buffer>
    ghost var pairs: set<Pair>

    ghost predicate Listed(s: Symbol, b: Buffer)
      reads s`elems, b`alist
    {
      b in s.elems && s.elems[b] in b.alist
    }

    /** The alist of `b` holds exactly the elements the symbols have for it. */
    ghost predicate AlistOk(b: Buffer)
      reads this`pairs, this`symbols, b`alist, pairs`car, symbols`elems
    {
      && (forall i :: 0 <= i < |b.alist| ==>
            && b.alist[i] in pairs && b.alist[i].car.Sym? && b.alist[i].car.s in symbols
            && b in b.alist[i].car.s.elems && b.alist[i].car.s.elems[b] == b.alist[i])
      && (forall s {:trigger Listed(s, b)} :: s in symbols && b in s.elems ==> Listed(s, b))
    }

    ghost predicate SymbolOk(s: Symbol)
      reads this`pairs, this`buffers, s`cells, s`elems, s`cached
    {
      && s.cells <= pairs && s.elems.Keys <= buffers
      && (s.cached != null ==> s.cached in buffers)
    }

    ghost predicate Apart()
      reads this`symbols, symbols`cells
    {
      forall s, t :: s in symbols && t in symbols && s != t ==> s.cells !! t.cells
    }

    ghost predicate Valid()
      reads this, symbols, buffers, pairs
    {
      && current in buffers
      && (forall s :: s in symbols ==> SymbolOk(s) && s.Rep())
      && Apart()
      && (forall b :: b in buffers ==> AlistOk(b))
    }

    constructor ()
      ensures Valid() && fresh(current) && fresh(buffers) && symbols == {}
    {
      current := new Buffer();
      symbols, pairs := {}, {};
      new;
      buffers := {current};
    }

    /** assq on the current buffer's alist. */
    method Assq(sym: Symbol) returns (p: Pair?)
      requires Valid() && sym in symbols
      ensures p == if current in sym.elems then sym.elems[current] else null
    {
      p := null;
      assert sym.Rep() && AlistOk(current);
      assert current in sym.elems ==> Listed(sym, current) && sym.elems[current].car == Sym(sym);
      for i := 0 to |current.alist|
        invariant current in sym.elems ==> sym.elems[current] in current.alist[i..]
      {
        if current.alist[i].car == Sym(sym) {
          p := current.alist[i];
          return;
        }
      }
    }

    /** A default cell is in no alist, so what its car says does not matter there. */
    twostate lemma AlistsKeep(cell: Pair)
      requires old(cell.car.Elt?) && cell.car.Elt?
      requires unchanged(this`symbols) && unchanged(this`buffers) && unchanged(this`pairs)
      requires unchanged(buffers`alist) && unchanged(symbols`elems)
      requires forall p :: p in pairs && p != cell ==> p.car == old(p.car)
      requires forall b :: b in buffers ==> old(AlistOk(b))
      ensures forall b :: b in buffers ==> AlistOk(b)
    {
      forall b | b in buffers
        ensures AlistOk(b)
      {
        assert old(AlistOk(b));
        forall s | s in symbols && b in s.elems
          ensures Listed(s, b)
        {
          assert old(Listed(s, b));
        }
      }
    }

    /** Swap out the cached buffer of `sym`. */
    method SwapOut(sym: Symbol)
      requires Valid() && sym in symbols && sym.kind != Plain
      modifies sym.cells`cdr
      ensures Valid() && sym.cell == old(sym.cell) && sym.cell.car == old(sym.cell.car)
      ensures sym.cell.car.Elt? && sym.cell.car.e.cdr == sym.realvalue
    {
      assert sym.Rep() && SymbolOk(sym);
      hide AlistOk;
      sym.WriteBack();
    }

    /** Bring in the current buffer. */
    method SwapIn(sym: Symbol)
      requires Valid() && sym in symbols && sym.kind != Plain
      requires sym.cell.car.Elt? && sym.cell.car.e.cdr == sym.realvalue
      modifies sym`realvalue, sym`cached, sym.cells`car
      ensures Valid() && sym.cached == current
      ensures sym.realvalue == Get(sym.v, current)
    {
      assert sym.Rep() && SymbolOk(sym);
      var tem := Assq(sym);
      if tem == null {
        tem := sym.cell;
      }
      hide AlistOk;
      sym.Encache(current, tem);
      AlistsKeep(sym.cell);
    }

    // -- what an operation on `sym` and the alist of `cur` leaves alone --

    twostate lemma AlistsSame()
      requires unchanged(this`symbols) && unchanged(this`pairs) && unchanged(this`buffers)
      requires unchanged(buffers`alist) && unchanged(symbols`elems) && unchanged(pairs`car)
      requires forall b :: b in buffers ==> old(AlistOk(b))
      ensures forall b :: b in buffers ==> AlistOk(b)
    {
      forall b | b in buffers ensures AlistOk(b) { assert old(AlistOk(b)); }
    }

    /** The invariant from its pieces. */
    lemma Assemble(sym: Symbol)
      requires current in buffers && sym in symbols
      requires forall t :: t in symbols && t != sym ==> SymbolOk(t) && t.Rep()
      requires SymbolOk(sym) && sym.Rep()
      requires Apart() && forall b :: b in buffers ==> AlistOk(b)
      ensures Valid()
    {
    }

    twostate lemma OthersKeep(sym: Symbol)
      requires old(Valid()) && sym in old(symbols)
      requires symbols == old(symbols) && buffers == old(buffers) && old(pairs) <= pairs
      requires forall t :: t in symbols && t != sym ==> unchanged(t)
      requires forall p :: p in old(pairs) && p !in old(sym.cells) ==> unchanged(p)
      requires sym.cells <= old(sym.cells) + (pairs - old(pairs))
      ensures forall t :: t in symbols && t != sym ==> SymbolOk(t) && t.Rep()
      ensures Apart()
    {
      forall t | t in symbols && t != sym
        ensures SymbolOk(t) && t.Rep() && t.cells !! sym.cells && t.cells == old(t.cells)
      {
        assert old(SymbolOk(t)) && old(t.Rep()) && old(Apart());
      }
      forall s, t | s in symbols && t in symbols && s != t
        ensures s.cells !! t.cells
      {
        assert old(Apart());
      }
    }

    twostate lemma OtherAlists(sym: Symbol)
      requires symbols == old(symbols) && buffers == old(buffers) && old(pairs) <= pairs && sym in symbols
      requires forall b :: b in buffers && b != current ==> b.alist == old(b.alist)
      requires forall s :: s in symbols && s != sym ==> s.elems == old(s.elems)
      requires forall b :: b in buffers && b != current ==>
                 (b in sym.elems <==> b in old(sym.elems)) && (b in sym.elems ==> sym.elems[b] == old(sym.elems)[b])
      requires forall p :: p in old(pairs) ==> p.car == old(p.car) || (p.car.Elt? && old(p.car.Elt?))
      requires forall b :: b in buffers ==> old(AlistOk(b))
      ensures forall b :: b in buffers && b != current ==> AlistOk(b)
    {
      forall b | b in buffers && b != current
        ensures AlistOk(b)
      {
        assert old(AlistOk(b));
        forall s | s in symbols && b in s.elems
          ensures Listed(s, b)
        {
          assert old(Listed(s, b));
        }
      }
    }

    /** `sym` got a new element for the current buffer, and nothing else of note happened. */
    twostate lemma ElementAdded(sym: Symbol)
      requires old(Valid()) && sym in old(symbols) && current == old(current)
      requires symbols == old(symbols) && buffers == old(buffers)
      requires current in sym.elems && current !in old(sym.elems)
      requires var p := sym.elems[current];
               && p.car == Sym(sym) && p !in old(pairs) && pairs == old(pairs) + {p}
               && sym.elems == old(sym.elems)[current := p] && sym.cells <= old(sym.cells) + {p}
               && current.alist == [p] + old(current.alist)
      requires forall b :: b in buffers && b != current ==> b.alist == old(b.alist)
      requires forall t :: t in symbols && t != sym ==> unchanged(t)
      requires forall q :: q in old(pairs) && q !in old(sym.cells) ==> unchanged(q)
      requires forall q :: q in old(sym.cells) ==> q.car == old(q.car) || (q.car.Elt? && old(q.car.Elt?))
      ensures forall b :: b in buffers ==> AlistOk(b)
      ensures forall t :: t in symbols && t != sym ==> SymbolOk(t) && t.Rep()
      ensures Apart()
    {
      OthersKeep(sym);
      OtherAlists(sym);
      assert old(AlistOk(current));
      forall i | 0 <= i < |current.alist|
        ensures && current.alist[i] in pairs && current.alist[i].car.Sym? && current.alist[i].car.s in symbols
                && current in current.alist[i].car.s.elems && current.alist[i].car.s.elems[current] == current.alist[i]
      {
        if i > 0 {
          assert current.alist[i] == old(current.alist)[i - 1];
        }
      }
      forall s | s in symbols && current in s.elems
        ensures Listed(s, current)
      {
        if s != sym { assert old(Listed(s, current)); }
      }
      assert AlistOk(current);
    }

    /** `sym` lost its element for the current buffer, and nothing else of note happened. */
    twostate lemma ElementRemoved(sym: Symbol)
      requires old(Valid()) && sym in old(symbols) && current == old(current)
      requires symbols == old(symbols) && buffers == old(buffers) && unchanged(this`pairs)
      requires current in old(sym.elems) && sym.elems == old(sym.elems) - {current} && sym.cells == old(sym.cells)
      requires forall q :: q in current.alist <==> q in old(current.alist) && q != old(sym.elems)[current]
      requires forall b :: b in buffers && b != current ==> b.alist == old(b.alist)
      requires forall t :: t in symbols && t != sym ==> unchanged(t)
      requires unchanged(pairs)
      ensures forall b :: b in buffers ==> AlistOk(b)
      ensures forall t :: t in symbols && t != sym ==> SymbolOk(t) && t.Rep()
      ensures Apart()
    {
      OthersKeep(sym);
      OtherAlists(sym);
      assert old(AlistOk(current)) && old(sym.Rep());
      forall i | 0 <= i < |current.alist|
        ensures && current.alist[i] in pairs && current.alist[i].car.Sym? && current.alist[i].car.s in symbols
                && current in current.alist[i].car.s.elems && current.alist[i].car.s.elems[current] == current.alist[i]
      {
        assert current.alist[i] in current.alist;
        var j :| 0 <= j < |old(current.alist)| && old(current.alist)[j] == current.alist[i];
      }
      forall s | s in symbols && current in s.elems
        ensures Listed(s, current)
      {
        assert old(Listed(s, current)) && old(s.Rep());
        assert s.elems[current] in old(s.cells) && old(sym.elems)[current] in old(sym.cells);
      }
      assert AlistOk(current);
    }

    /** symbol-value.  If another buffer is cached, its value goes back to its element and the
        current buffer's element (or the default) is brought in. */
    method SymbolValue(sym: Symbol) returns (r: Result)
      requires Valid() && sym in symbols
      modifies sym`realvalue, sym`cached, sym.cells
      ensures Valid()
      ensures r == if Get(sym.v, current) == Unbound then VoidVariable else Ok(Get(sym.v, current))
    {
      assert sym.Rep();
      if sym.kind != Plain && sym.cached != current {
        SwapOut(sym);
        SwapIn(sym);
      }
      r := if sym.realvalue == Unbound then VoidVariable else Ok(sym.realvalue);
    }

    /** default-value. */
    method DefaultValue(sym: Symbol) returns (r: Result)
      requires Valid() && sym in symbols
      modifies sym`realvalue, sym`cached, sym.cells
      ensures Valid()
      ensures r == if sym.v.kind == Plain then Read(sym.v.dflt) else Ok(sym.v.dflt)
    {
      assert sym.Rep();
      if sym.kind != Plain {
        return Ok(sym.cell.cdr);
      }
      r := SymbolValue(sym);
    }

    /** set-default. */
    method SetDefault(sym: Symbol, x: Value) returns (r: Result)
      requires Valid() && sym in symbols
      modifies sym`v, sym`realvalue, sym.cells`cdr
      ensures Valid()
      ensures if sym.constant && old(sym.v.kind) == Plain then r == SettingConstant && sym.v == old(sym.v)
              else r == Ok(x) && sym.v == old(sym.v).(dflt := x)
    {
      assert sym.Rep() && SymbolOk(sym);
      hide AlistOk;
      if sym.kind == Plain && sym.constant {
        return SettingConstant;
      }
      sym.SetDefault(x);
      OthersKeep(sym);
      AlistsSame();
      Assemble(sym);
      r := Ok(x);
    }

    /** set on a variable whose cache is right for the current buffer. */
    method SetCached(sym: Symbol, x: Value)
      requires Valid() && sym in symbols && (sym.kind == Plain || (sym.kind == Some && sym.cached == current))
      modifies sym`v, sym`realvalue, sym.cells`cdr
      ensures Valid() && sym.v == SpecSet(old(sym.v), current, x)
    {
      assert sym.Rep() && SymbolOk(sym);
      hide AlistOk;
      sym.SetCached(current, x);
      OthersKeep(sym);
      AlistsSame();
      Assemble(sym);
    }

    /** The element of the current buffer, or what will be one. */
    method FindOrMake(sym: Symbol) returns (tem: Pair, made: bool)
      requires Valid() && sym in symbols && sym.kind != Plain
      ensures made <==> current !in sym.elems && sym.kind == All
      ensures if current in sym.elems then tem == sym.elems[current]
              else if sym.kind == Some then tem == sym.cell else fresh(tem) && tem.car == Sym(sym)
    {
      assert sym.Rep();
      made := false;
      var found := Assq(sym);
      if found != null {
        tem := found;
      } else if sym.kind == Some {
        tem := sym.cell;
      } else {
        tem := new Pair(Sym(sym), sym.cell.car.e.cdr);
        made := true;
      }
    }

    /** The current buffer has an element, or sees the default. */
    method SetExisting(sym: Symbol, tem: Pair, x: Value)
      requires Valid() && sym in symbols && sym.kind != Plain
      requires sym.cell.car.Elt? && sym.cell.car.e.cdr == sym.realvalue
      requires if current in sym.elems then tem == sym.elems[current] else sym.kind == Some && tem == sym.cell
      modifies sym`v, sym`realvalue, sym`cached, sym`elems, sym`cells, sym.cells
      ensures Valid() && sym.v == SpecSet(old(sym.v), current, x)
    {
      assert sym.Rep() && SymbolOk(sym);
      hide AlistOk;
      sym.StoreInto(current, tem, x);
      assert sym.elems == old(sym.elems) && sym.cells == old(sym.cells);
      AlistsKeep(sym.cell);
      OthersKeep(sym);
      Assemble(sym);
    }

    /** The current buffer gets an element of its own. */
    method SetMakingLocal(sym: Symbol, tem: Pair, x: Value)
      requires Valid() && sym in symbols && sym.kind == All && current !in sym.elems
      requires sym.cell.car.Elt? && sym.cell.car.e.cdr == sym.realvalue
      requires tem !in pairs && tem.car == Sym(sym)
      modifies this`pairs, sym`v, sym`realvalue, sym`cached, sym`elems, sym`cells, sym.cells, current`alist
      ensures Valid() && pairs == old(pairs) + {tem} && sym.v == SpecSet(old(sym.v), current, x)
    {
      assert sym.Rep() && SymbolOk(sym) && AlistOk(current);
      hide AlistOk;
      current.alist := [tem] + current.alist;
      sym.StoreMade(current, tem, x);
      pairs := pairs + {tem};
      ElementAdded(sym);
      Assemble(sym);
    }

    /** set on a variable that must be looked for in the current buffer, or made local there.  The
        source compares the current buffer with the car of the current element for an `All` variable;
        that is never a buffer, so this way is always taken. */
    method SetSwapped(sym: Symbol, x: Value)
      requires Valid() && sym in symbols && sym.kind != Plain
      modifies this`pairs, sym`v, sym`realvalue, sym`cached, sym`elems, sym`cells, sym.cells, current`alist
      ensures Valid() && fresh(pairs - old(pairs)) && sym.v == SpecSet(old(sym.v), current, x)
    {
      SwapOut(sym);
      assert sym.Rep() && SymbolOk(sym);
      var tem, made := FindOrMake(sym);
      if made {
        SetMakingLocal(sym, tem, x);
      } else {
        SetExisting(sym, tem, x);
      }
    }

    /** set. */
    method Set(sym: Symbol, x: Value) returns (r: Result)
      requires Valid() && sym in symbols
      modifies this`pairs, sym`v, sym`realvalue, sym`cached, sym`elems, sym`cells, sym.cells, current`alist
      ensures Valid() && fresh(pairs - old(pairs))
      ensures sym.v == Effect(Op.Set(sym, x), current, sym, old(sym.v))
      ensures r == Outcome(Op.Set(sym, x), current, old(sym.v))
    {
      assert sym.Rep();
      if sym.constant {
        return SettingConstant;
      }
      if sym.kind == Plain || (sym.kind == Some && sym.cached == current) {
        SetCached(sym, x);
      } else {
        SetSwapped(sym, x);
      }
      r := Ok(x);
    }

    /** No alist changes when pairs that are in none are made. */
    twostate lemma AlistsGrow()
      requires unchanged(this`symbols) && unchanged(this`buffers) && old(pairs) <= pairs
      requires unchanged(buffers`alist) && unchanged(symbols`elems)
      requires forall p :: p in old(pairs) ==> p.car == old(p.car)
      requires forall b :: b in buffers ==> old(AlistOk(b))
      ensures forall b :: b in buffers ==> AlistOk(b)
    {
      forall b | b in buffers
        ensures AlistOk(b)
      {
        assert old(AlistOk(b));
        forall s | s in symbols && b in s.elems
          ensures Listed(s, b)
        {
          assert old(Listed(s, b));
        }
      }
    }

    /** Give a plain variable its list of four. */
    method MakeCache(sym: Symbol, k: Kind, b: Buffer?)
      requires Valid() && sym in symbols && sym.kind == Plain && k != Plain && (b != null ==> b in buffers)
      modifies this`pairs, sym`v, sym`kind, sym`realvalue, sym`cached, sym`cell, sym`cells
      ensures Valid() && fresh(pairs - old(pairs)) && sym.kind == k
      ensures sym.v == Var(k, Bound(old(sym.v).dflt), map[])
    {
      assert sym.Rep() && SymbolOk(sym);
      hide AlistOk;
      sym.MakeCache(k, b);
      pairs := pairs + sym.cells;
      OthersKeep(sym);
      AlistsGrow();
      Assemble(sym);
    }

    /** make-variable-buffer-local. */
    method MakeAll(sym: Symbol) returns (r: Result)
      requires Valid() && sym in symbols
      modifies this`pairs, sym`v, sym`kind, sym`realvalue, sym`cached, sym`cell, sym`cells
      ensures Valid() && fresh(pairs - old(pairs))
      ensures sym.v == Effect(Op.MakeAll(sym), current, sym, old(sym.v))
      ensures r == Outcome(Op.MakeAll(sym), current, old(sym.v))
      ensures !sym.constant && (old(sym.v.kind) != Plain || old(sym.v.dflt) != Unbound) ==>
                sym.v.dflt == old(sym.v.dflt) && forall b: Buffer :: Get(sym.v, b) == Get(old(sym.v), b)
      ensures !sym.constant && old(sym.v.kind) == Plain && old(sym.v.dflt) == Unbound ==>
                sym.v.dflt == Nil && forall b: Buffer :: Get(sym.v, b) == Nil
      ensures !sym.constant ==> sym.v.kind == All
    {
      assert sym.Rep();
      if sym.constant {
        return MayNotBeLocal;
      }
      if sym.kind == Plain {
        MakeCache(sym, All, current);
      } else if sym.kind == Some {
        sym.BecomeAll();
        AlistsSame();
      }
      r := Done;
    }

    /** The current buffer gets the element `p` for `sym`, holding the default. */
    method AddLocal(sym: Symbol, p: Pair)
      requires Valid() && sym in symbols && sym.kind == Some && current !in sym.elems
      requires p !in pairs && p.car == Sym(sym) && sym.cell != null && p.cdr == sym.cell.cdr
      modifies this`pairs, sym`v, sym`cached, sym`elems, sym`cells, current`alist
      ensures Valid() && pairs == old(pairs) + {p}
      ensures sym.v == SpecMakeLocal(old(sym.v), current)
    {
      hide Symbol.Rep;
      assert sym.Rep() && SymbolOk(sym) && AlistOk(current);
      current.alist := [p] + current.alist;
      sym.AddLocal(current, p);
      pairs := pairs + {p};
      ElementAdded(sym);
      Assemble(sym);
    }

    /** make-local-variable. */
    method MakeLocal(sym: Symbol) returns (r: Result)
      requires Valid() && sym in symbols
      modifies this`pairs, sym`v, sym`kind, sym`realvalue, sym`cached, sym`cell, sym`elems, sym`cells, current`alist
      ensures Valid() && fresh(pairs - old(pairs))
      ensures sym.v == Effect(Op.MakeLocal(sym), current, sym, old(sym.v))
      ensures r == Outcome(Op.MakeLocal(sym), current, old(sym.v))
      ensures !sym.constant && (old(sym.v.kind) != Plain || old(sym.v.dflt) != Unbound) ==>
                sym.v.dflt == old(sym.v.dflt) && forall b: Buffer :: Get(sym.v, b) == Get(old(sym.v), b)
      ensures !sym.constant && old(sym.v.kind) == Plain && old(sym.v.dflt) == Unbound ==>
                sym.v.dflt == Nil && forall b: Buffer :: Get(sym.v, b) == Nil
      ensures !sym.constant && old(sym.v.kind) != All ==> sym.v.kind == Some && current in sym.v.locals
    {
      hide AlistOk, SymbolOk;
      assert sym.Rep();
      if sym.constant {
        return MayNotBeLocal;
      }
      if sym.kind == All {
        return Done;
      }
      if sym.kind == Plain {
        MakeCache(sym, Some, null);
      }
      LocalHere(sym);
      r := Done;
    }

    /** An element in the current buffer's alist, unless there is one. */
    method LocalHere(sym: Symbol)
      requires Valid() && sym in symbols && sym.kind == Some
      modifies this`pairs, sym`v, sym`cached, sym`elems, sym`cells, current`alist
      ensures Valid() && fresh(pairs - old(pairs)) && sym.v == SpecMakeLocal(old(sym.v), current) && sym.kind == sym.v.kind
    {
      hide AlistOk, SymbolOk;
      assert sym.Rep();
      var tem := Assq(sym);
      if tem == null {
        tem := new Pair(Sym(sym), sym.cell.cdr);
        AddLocal(sym, tem);
      }
      assert sym.Rep();
    }

    /** delq. */
    static method Delq(p: Pair, l: seq<Pair>) returns (r: seq<Pair>)
      ensures forall q :: q in r <==> q in l && q != p
    {
      r := [];
      for i := 0 to |l|
        invariant forall q :: q in r <==> q in l[..i] && q != p
      {
        if l[i] != p {
          r := r + [l[i]];
        }
      }
      assert l[..|l|] == l;
    }

    /** kill-local-variable on a variable that may be local. */
    method RemoveLocal(sym: Symbol)
      requires Valid() && sym in symbols && sym.kind != Plain
      modifies sym`v, sym`cached, sym`elems, current`alist
      ensures Valid() && sym.v == SpecKillLocal(old(sym.v), current)
    {
      assert sym.Rep() && SymbolOk(sym);
      var tem := Assq(sym);
      if tem != null {
        current.alist := Delq(tem, current.alist);
      }
      hide AlistOk;
      sym.RemoveLocal(current);
      if tem != null {
        ElementRemoved(sym);
      } else {
        assert sym.elems == old(sym.elems);
        OthersKeep(sym);
        AlistsSame();
      }
      Assemble(sym);
    }

    /** kill-local-variable. */
    method KillLocal(sym: Symbol)
      requires Valid() && sym in symbols
      modifies sym`v, sym`cached, sym`elems, current`alist
      ensures Valid() && sym.v == Effect(Op.KillLocal(sym), current, sym, old(sym.v))
    {
      assert sym.Rep();
      if sym.kind != Plain {
        RemoveLocal(sym);
      } else {
        assert sym.v.locals - {current} == map[];
      }
    }

    /** set-buffer. */
    method SetBuffer(b: Buffer)
      requires Valid() && b in buffers
      modifies this`current
      ensures Valid() && current == b
    {
      current := b;
      assert forall c :: c in buffers ==> old(AlistOk(c)) && AlistOk(c);
    }

    ghost predicate KilledSome(e0: map<Symbol, map<Buffer, Pair>>, v0: map<Symbol, Var<Buffer>>)
      reads this`symbols, this`current, symbols`elems, symbols`v
    {
      forall s :: s in symbols ==> s in e0 && s in v0 && Killed(e0[s], v0[s], s.elems, s.v, current)
    }

    ghost predicate Represented()
      reads this`symbols, symbols, (set s, p | s in symbols && p in s.cells :: p)
    {
      Apart() && forall s :: s in symbols ==> s.Rep()
    }

    /** The symbols of the current alist. */
    lemma AlistSymbols() returns (syms: seq<Symbol>)
      requires Valid()
      ensures |syms| == |current.alist|
      ensures forall j :: 0 <= j < |syms| ==>
                current.alist[j] in syms[j].cells && current.alist[j] != syms[j].cell && syms[j] in symbols && syms[j].kind != Plain
      ensures forall s :: s in symbols && current in s.elems ==> s in syms
      ensures current in buffers
      ensures forall s :: s in symbols ==> SymbolOk(s) && s.cells <= pairs
      ensures forall b :: b in buffers ==> AlistOk(b)
    {
      var l := current.alist;
      assert AlistOk(current) && forall s :: s in symbols ==> SymbolOk(s) && s.Rep();
      syms := [];
      while |syms| < |l|
        invariant |syms| <= |l| && forall j :: 0 <= j < |syms| ==> l[j].car == Sym(syms[j])
      {
        syms := syms + [l[|syms|].car.s];
      }
      forall s | s in symbols
        ensures current in s.elems ==> s in syms
      {
        if current in s.elems {
          assert Listed(s, current);
          var j :| 0 <= j < |l| && l[j] == s.elems[current];
          assert syms[j] == s;
        }
      }
    }

    lemma NoneKilled() returns (e0: map<Symbol, map<Buffer, Pair>>, v0: map<Symbol, Var<Buffer>>)
      requires Valid()
      ensures e0.Keys == v0.Keys == symbols && forall s :: s in symbols ==> e0[s] == s.elems && v0[s] == s.v
      ensures Represented() && KilledSome(e0, v0)
    {
      e0, v0 := (map s | s in symbols :: s.elems), (map s | s in symbols :: s.v);
      forall s | s in symbols
        ensures Killed(s.elems, s.v, s.elems, s.v, current)
      {
        assert s.Rep();
        if current !in s.elems {
          assert s.elems - {current} == s.elems && s.v.locals - {current} == s.v.locals;
        }
      }
    }

    lemma CarOf(sym: Symbol, p: Pair)
      requires sym in symbols && Represented() && sym.kind != Plain && p in sym.cells && p != sym.cell
      ensures p.car == Sym(sym)
    {
      sym.ElementCar(p);
    }

    /** One step of the loop of kill-all-local-variables. */
    method KillStep(sym: Symbol, ghost e0: map<Symbol, map<Buffer, Pair>>, ghost v0: map<Symbol, Var<Buffer>>)
      requires sym in symbols && sym.kind != Plain && Represented() && KilledSome(e0, v0)
      modifies sym`realvalue, sym`cached, sym`elems, sym`v, sym.cells`car
      ensures sym.Gone(current) && Represented() && KilledSome(e0, v0) && sym.cached == old(sym.cached)
    {
      KilledTwice(e0[sym], v0[sym], sym.elems, sym.v, current);
      hide Killed;
      hide Symbol.Rep;
      sym.ResetLocal(current);
    }

    /** The loop of kill-all-local-variables: every variable with an element in the alist sees its
        default in the current buffer. */
    method EachElement(ghost syms: seq<Symbol>, ghost e0: map<Symbol, map<Buffer, Pair>>, ghost v0: map<Symbol,
                       Var<Buffer>>)
      requires Represented() && KilledSome(e0, v0) && |syms| == |current.alist|
      requires forall j :: 0 <= j < |syms| ==>
                 && current.alist[j] in syms[j].cells && current.alist[j] != syms[j].cell
                 && syms[j] in symbols && syms[j].kind != Plain
      requires forall s :: s in symbols ==> s.cells <= pairs
      modifies symbols`realvalue, symbols`cached, symbols`elems, symbols`v, pairs`car
      ensures Represented() && KilledSome(e0, v0)
      ensures forall s :: s in symbols ==> s.cached == old(s.cached)
      ensures forall s :: s in syms ==> s.Gone(current)
    {
      hide Represented;
      hide KilledSome;
      hide Symbol.Gone;
      hide Symbol.Rep;
      hide Killed;
      ghost var gone: set<Symbol> := {};
      for i := 0 to |current.alist|
        invariant Represented() && KilledSome(e0, v0)
        invariant forall s :: s in symbols ==> s.cached == old(s.cached)
        invariant forall s :: s in syms[..i] ==> s in gone
        invariant forall s :: s in gone ==> s.Gone(current)
      {
        CarOf(syms[i], current.alist[i]);
        var sym := current.alist[i].car.s;
        KillStep(sym, e0, v0);
        gone := gone + {sym};
      }
      assert syms[..|syms|] == syms;
    }

    /** The alists once each variable has lost its element for the current buffer. */
    twostate lemma AlistsKilled()
      requires symbols == old(symbols) && buffers == old(buffers) && pairs == old(pairs) && current == old(current)
      requires Represented() && old(Represented())
      requires forall s :: s in symbols ==> s.elems == old(s.elems) - {current} && s.cell == old(s.cell) && s.kind == old(s.kind)
      requires forall b :: b in buffers ==> old(AlistOk(b)) && b.alist == if b == current then [] else old(b.alist)
      ensures forall b :: b in buffers ==> AlistOk(b)
    {
      forall b | b in buffers
        ensures AlistOk(b)
      {
        assert old(AlistOk(b));
        if b != current {
          forall i | 0 <= i < |b.alist|
            ensures var p := b.alist[i]; p in pairs && p.car.Sym? && p.car.s in symbols && b in p.car.s.elems && p.car.s.elems[b] == p
          {
            var s := old(b.alist[i].car.s);
            assert old(s.Rep()) && s.Rep() && s.elems[b] == b.alist[i];
          }
          forall s | s in symbols && b in s.elems
            ensures Listed(s, b)
          {
            assert old(Listed(s, b));
          }
        }
      }
    }

    /** Every variable has lost its element for the current buffer. */
    lemma AllKilled(syms: seq<Symbol>, e0: map<Symbol, map<Buffer, Pair>>, v0: map<Symbol, Var<Buffer>>)
      requires e0.Keys == v0.Keys == symbols && KilledSome(e0, v0)
      requires forall s :: s in symbols && current in e0[s] ==> s in syms
      requires forall s :: s in syms ==> s.Gone(current)
      ensures forall s :: s in symbols ==> s.elems == e0[s] - {current} && s.v == SpecKillLocal(v0[s], current)
    {
    }

    twostate lemma SymbolsKilled()
      requires symbols == old(symbols) && buffers == old(buffers) && pairs == old(pairs) && current in buffers
      requires Represented() && forall b :: b in buffers ==> AlistOk(b)
      requires forall s :: s in symbols ==> old(SymbolOk(s)) && s.cells == old(s.cells) && s.cached == old(s.cached)
      requires forall s :: s in symbols ==> s.elems == old(s.elems) - {current}
      ensures Valid()
    {
      forall s | s in symbols ensures SymbolOk(s) { assert old(SymbolOk(s)); }
    }

    /** The loop as seen from outside. */
    method KillElements()
      requires Valid()
      modifies symbols`realvalue, symbols`cached, symbols`elems, symbols`v, pairs`car
      ensures Represented() && forall s :: s in symbols ==> s.elems == old(s.elems) - {current} && s.cached == old(s.cached)
      ensures forall s :: s in symbols ==> s.v == SpecKillLocal(old(s.v), current)
    {
      ghost var syms := AlistSymbols();
      ghost var e0, v0 := NoneKilled();
      hide *;
      EachElement(syms, e0, v0);
      AllKilled(syms, e0, v0);
    }

    /** kill-all-local-variables. */
    method KillAllLocals()
      requires Valid()
      modifies symbols`realvalue, symbols`cached, symbols`elems, symbols`v, pairs`car, current`alist
      ensures Valid()
      ensures forall s :: s in symbols ==> s.v == SpecKillLocal(old(s.v), current)
    {
      assert Represented() && (forall s :: s in symbols ==> SymbolOk(s)) && forall b :: b in buffers ==> AlistOk(b);
      hide *;
      KillElements();
      current.alist := [];
      AlistsKilled();
      SymbolsKilled();
    }

    // ---- sessions ----

    /** get-buffer-create: a new buffer sees every default. */
    method NewBuffer() returns (b: Buffer)
      requires Valid()
      modifies this`buffers
      ensures Valid() && fresh(b) && buffers == old(buffers) + {b}
      ensures forall s :: s in symbols ==> Get(s.v, b) == s.v.dflt
    {
      b := new Buffer();
      assert forall s :: s in symbols ==> SymbolOk(s) && s.Rep();
      assert forall c :: c in buffers ==> AlistOk(c);
      buffers := buffers + {b};
      forall c | c in buffers
        ensures AlistOk(c)
      {
        if c != b { assert old(AlistOk(c)); }
      }
    }

    /** intern: a new plain variable. */
    method NewSymbol(constant: bool, value: Value) returns (sym: Symbol)
      requires Valid()
      modifies this`symbols
      ensures Valid() && fresh(sym) && symbols == old(symbols) + {sym}
      ensures sym.constant == constant && sym.v == Var(Plain, value, map[])
    {
      sym := new Symbol(constant, value);
      assert forall s :: s in symbols ==> SymbolOk(s) && s.Rep();
      symbols := symbols + {sym};
      assert sym.Rep() && SymbolOk(sym);
      forall b | b in buffers
        ensures AlistOk(b)
      {
        assert old(AlistOk(b));
        forall s | s in symbols && b in s.elems
          ensures Listed(s, b)
        {
          assert old(Listed(s, b));
        }
      }
    }

    ghost predicate Known(op: Op)
      reads this`symbols, this`buffers
    {
      if op.SetBuffer? then op.b in buffers else op.KillAllLocals? || op.s in symbols
    }

    lemma ValidSymbols()
      requires Valid()
      ensures current in buffers && forall s :: s in symbols ==> s.cells <= pairs
    {
      assert forall s :: s in symbols ==> SymbolOk(s);
    }

    /** One operation does to every variable what the specification says. */
    method Do(op: Op) returns (r: Result)
      requires Valid() && Known(op)
      modifies this, symbols, pairs, current
      ensures Valid() && symbols == old(symbols) && buffers == old(buffers) && fresh(pairs - old(pairs))
      ensures current in buffers && current == if op.SetBuffer? then op.b else old(current)
      ensures forall s {:trigger s.v} :: s in symbols ==> s.v == Effect(op, old(current), s, old(s.v))
      ensures !op.SetBuffer? && !op.KillAllLocals? ==> r == Outcome(op, old(current), old(op.s.v))
    {
      hide Valid;
      ValidSymbols();
      r := Done;
      match op
      case SetBuffer(b) => SetBuffer(b);
      case KillAllLocals => KillAllLocals();
      case SymbolValue(s) => r := SymbolValue(s);
      case DefaultValue(s) => r := DefaultValue(s);
      case Set(s, x) => r := Set(s, x);
      case SetDefault(s, x) => r := SetDefault(s, x);
      case MakeAll(s) => r := MakeAll(s);
      case MakeLocal(s) => r := MakeLocal(s);
      case KillLocal(s) => KillLocal(s);
    }

    /** The answer `r` to operation `i` of a session is the one the plain variables give. */
    twostate predicate Answers(ops: seq<Op>, i: nat, r: Result)
      requires i < |ops|
    {
      !ops[i].SetBuffer? && !ops[i].KillAllLocals? ==>
        r == Outcome(ops[i], CurrentAfter(ops, i, old(current)), VarAfter(ops, i, old(current), ops[i].s, old(ops[i].s.v)))
    }

    /** A whole session: every answer is the one the plain variables give. */
    method Run(ops: seq<Op>) returns (outs: seq<Result>)
      requires Valid() && forall i :: 0 <= i < |ops| ==> Known(ops[i])
      modifies this, symbols, pairs, buffers
      ensures Valid() && symbols == old(symbols) && buffers == old(buffers)
      ensures |outs| == |ops| && current == CurrentAfter(ops, |ops|, old(current))
      ensures forall s :: s in symbols ==> s.v == VarAfter(ops, |ops|, old(current), s, old(s.v))
      ensures forall i :: 0 <= i < |ops| ==> Answers(ops, i, outs[i])
    {
      hide Outcome, Effect, Valid;
      ValidSymbols();
      outs := [];
      for n := 0 to |ops|
        invariant current in buffers && Valid() && symbols == old(symbols) && buffers == old(buffers)
        invariant fresh(pairs - old(pairs))
        invariant |outs| == n && current == CurrentAfter(ops, n, old(current))
        invariant forall s {:trigger s.v} :: s in symbols ==> s.v == VarAfter(ops, n, old(current), s, old(s.v))
        invariant forall i :: 0 <= i < n ==> Answers(ops, i, outs[i])
      {
        var r := Do(ops[n]);
        assert Answers(ops, n, r);
        outs := outs + [r];
      }
    }
  }
}
