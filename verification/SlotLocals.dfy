/** Variables kept in slots of the buffer itself: a bit in the buffer's local_var_flags says that it has
    a value of its own, and a buffer without the bit holds a copy of the default.  They behave as the
    variables of LocalValues do. */
module SlotLocals {
  import opened LocalValues

  /** An entry of buffer_local_flags: not a Lisp variable (0), local in every buffer (-1), the same and
      part of the major mode, which resetting makes Fundamental, the same but reset to the default with
      the others (-2), or local where the buffer's flags have the bit of the mask.  A word of flags is the
      set of the numbers of its bits. */
  datatype Slot = NotLisp | Always | Mode(fundamental: Value) | AlwaysReset | Masked(bit: nat)

  /** Each mask is a bit of its own. */
  ghost predicate Disjoint(kinds: seq<Slot>) {
    forall s, t :: 0 <= s < |kinds| && 0 <= t < |kinds| && s != t && kinds[s].Masked? && kinds[t].Masked? ==>
      kinds[s].bit != kinds[t].bit
  }

  /** What resetting makes of a slot that holds `x`. */
  function ResetOf(kind: Slot, x: Value, dflt: Value): Value {
    match kind
    case NotLisp => x
    case Always => x
    case Mode(v) => v
    case AlwaysReset => dflt
    case Masked(_) => dflt
  }

  // ---- the specification: sessions ----

  datatype Op =
    | SetBuffer(b: Buffer)
    | KillAllLocals
    | SymbolValue(s: nat)
    | DefaultValue(s: nat)
    | Set(s: nat, x: Value)
    | SetDefault(s: nat, x: Value)
    | KillLocal(s: nat)

  /** What `op`, done in buffer `cur`, makes of the variable `v` in slot `s`, of the given kind. */
  ghost function Effect(op: Op, cur: Buffer, s: nat, kind: Slot, v: Var<Buffer>): Var<Buffer> {
    match op
    case KillAllLocals =>
      if kind.Masked? then SpecKillLocal(v, cur) else SpecSet(v, cur, ResetOf(kind, Get(v, cur), v.dflt))
    case Set(t, x) => if t == s then SpecSet(v, cur, x) else v
    case SetDefault(t, x) => if t == s then v.(dflt := x) else v
    case KillLocal(t) => if t == s && kind.Masked? then SpecKillLocal(v, cur) else v
    case _ => v
  }

  /** What it returns when its variable is `v`. */
  ghost function Outcome(op: Op, cur: Buffer, v: Var<Buffer>): Result {
    match op
    case SymbolValue(_) => Ok(Get(v, cur))
    case DefaultValue(_) => Ok(v.dflt)
    case _ => Done
  }

  /** The current buffer after the first `n` operations. */
  ghost function CurrentAfter(ops: seq<Op>, n: nat, cur: Buffer): Buffer
    requires n <= |ops|
  {
    if n == 0 then cur
    else if ops[n - 1].SetBuffer? then ops[n - 1].b
    else CurrentAfter(ops, n - 1, cur)
  }

  /** The variable in slot `s` after the first `n` operations. */
  ghost function VarAfter(ops: seq<Op>, n: nat, cur: Buffer, s: nat, kind: Slot, v: Var<Buffer>): Var<Buffer>
    requires n <= |ops|
  {
    if n == 0 then v
    else Effect(ops[n - 1], CurrentAfter(ops, n - 1, cur), s, kind, VarAfter(ops, n - 1, cur, s, kind, v))
  }

  /** What each operation does, seen from buffer `b`: a value set is the current buffer's own; a default is seen where
      there is no value; killing goes back to the default in a masked slot only, and killing all locals, besides, in a
      slot that is always reset, and makes the mode Fundamental. */
  lemma SeenFrom(op: Op, cur: Buffer, s: nat, kind: Slot, v: Var<Buffer>, b: Buffer)
    requires v.kind == All
    ensures var w := Effect(op, cur, s, kind, v);
            match op
            case Set(t, x) => Get(w, b) == if t == s && b == cur then x else Get(v, b)
            case SetDefault(t, x) => Get(w, b) == if t == s && b !in v.locals then x else Get(v, b)
            case KillLocal(t) => Get(w, b) == if t == s && b == cur && kind.Masked? then v.dflt else Get(v, b)
            case KillAllLocals =>
              Get(w, b) == if b != cur || kind.Always? || kind.NotLisp? then Get(v, b)
                           else if kind.Mode? then kind.fundamental else v.dflt
            case _ => w == v
    ensures Effect(op, cur, s, kind, v).dflt == if op.SetDefault? && op.s == s then op.x else v.dflt
  {
  }

  /** As long as `b` is not made current, no operation changes what it sees in a slot where it has a value of its
      own; and in a masked slot where it has none, it sees the default, whatever other buffers do. */
  lemma {:induction false} OtherBuffersDoNot(ops: seq<Op>, n: nat, cur: Buffer, b: Buffer, s: nat, kind: Slot,
                                             v: Var<Buffer>)
    requires n <= |ops| && v.kind == All && cur != b
    requires forall i :: 0 <= i < n ==> ops[i] != Op.SetBuffer(b)
    ensures var w := VarAfter(ops, n, cur, s, kind, v);
            && CurrentAfter(ops, n, cur) != b && w.kind == All
            && (b in w.locals <==> b in v.locals)
            && Get(w, b) == if b in v.locals then v.locals[b] else w.dflt
  {
    if n > 0 {
      OtherBuffersDoNot(ops, n - 1, cur, b, s, kind, v);
    }
  }

  class Buffer {
    var slots: seq<Value>
    var flags: set<nat>  // local_var_flags

    constructor (slots: seq<Value>, flags: set<nat>)
      ensures this.slots == slots && this.flags == flags
    {
      this.slots, this.flags := slots, flags;
    }
  }

  class World {
    const kinds: seq<Slot>           // buffer_local_flags
    var defaults: seq<Value>         // buffer_defaults
    var allBuffers: seq<Buffer>
    var current: Buffer

    ghost predicate Local(b: Buffer, s: nat)
      requires s < |kinds|
      reads this, b
    {
      match kinds[s]
      case Masked(bit) => bit in b.flags
      case _ => true
    }

    ghost predicate BufferOk(b: Buffer)
      reads this, b
    {
      && |b.slots| == |kinds| == |defaults|
      && forall s :: 0 <= s < |kinds| && !Local(b, s) ==> b.slots[s] == defaults[s]
    }

    ghost predicate Valid()
      reads this, allBuffers
    {
      && Disjoint(kinds) && |defaults| == |kinds| && current in allBuffers
      && forall b :: b in allBuffers ==> BufferOk(b)
    }

    /** The variable in slot `s`. */
    ghost function VarOf(s: nat): Var<Buffer>
      requires s < |kinds| == |defaults| && forall b :: b in allBuffers ==> |b.slots| == |kinds|
      reads this, allBuffers
    {
      Var(All, defaults[s], map b | b in allBuffers && Local(b, s) :: b.slots[s])
    }

    constructor (kinds: seq<Slot>, defaults: seq<Value>, slots: seq<Value>)
      requires Disjoint(kinds) && |defaults| == |slots| == |kinds|
      ensures Valid() && this.kinds == kinds && this.defaults == defaults && fresh(current) && allBuffers == [current]
    {
      this.kinds, this.defaults := kinds, defaults;
      var b := new Buffer(slots, {});
      current, allBuffers := b, [b];
      new;
      ResetLocals(b);
    }

    /** The variable in slot `t`, from its pieces. */
    lemma VarIs(t: nat, v: Var<Buffer>)
      requires t < |kinds| == |defaults| && forall b :: b in allBuffers ==> |b.slots| == |kinds|
      requires v.kind == All && v.dflt == defaults[t]
      requires forall b :: b in v.locals <==> b in allBuffers && Local(b, t)
      requires forall b :: b in v.locals ==> v.locals[b] == b.slots[t]
      ensures VarOf(t) == v
    {
      assert VarOf(t).locals == v.locals;
    }

    /** symbol-value. */
    method SymbolValue(s: nat) returns (x: Value)
      requires Valid() && s < |kinds|
      ensures x == Get(VarOf(s), current)
    {
      assert BufferOk(current);
      x := current.slots[s];
    }

    /** default-value. */
    method DefaultValue(s: nat) returns (x: Value)
      requires Valid() && s < |kinds| && kinds[s] != NotLisp
      ensures x == VarOf(s).dflt
    {
      x := defaults[s];
    }

    /** set. */
    method Set(s: nat, x: Value)
      requires Valid() && s < |kinds|
      modifies current
      ensures Valid() && VarOf(s) == SpecSet(old(VarOf(s)), current, x)
      ensures forall t :: 0 <= t < |kinds| && t != s ==> VarOf(t) == old(VarOf(t))
    {
      assert BufferOk(current);
      if kinds[s].Masked? {
        current.flags := current.flags + {kinds[s].bit};
      }
      current.slots := current.slots[s := x];
      assert forall b :: b in allBuffers ==> old(BufferOk(b));
      assert forall b, t :: b in allBuffers && 0 <= t < |kinds| ==>
               (Local(b, t) <==> old(Local(b, t)) || (b == current && t == s));
      VarIs(s, SpecSet(old(VarOf(s)), current, x));
      forall t | 0 <= t < |kinds| && t != s
        ensures VarOf(t) == old(VarOf(t))
      {
        VarIs(t, old(VarOf(t)));
      }
    }

    /** Give the slot the value `x` in every buffer without the bit. */
    method Spread(s: nat, x: Value)
      requires s < |kinds| && kinds[s].Masked? && forall b :: b in allBuffers ==> |b.slots| == |kinds|
      modifies allBuffers
      ensures forall b :: b in allBuffers ==>
                b.flags == old(b.flags) && b.slots == if Local(b, s) then old(b.slots) else old(b.slots)[s := x]
    {
      for i := 0 to |allBuffers|
        invariant forall b :: b in allBuffers ==> b.flags == old(b.flags) && |b.slots| == |old(b.slots)| == |kinds|
        invariant forall b :: b in allBuffers ==>
                    b.slots == old(b.slots) || (!Local(b, s) && b.slots == old(b.slots)[s := x])
        invariant forall b :: b in allBuffers[..i] && !Local(b, s) ==> b.slots == old(b.slots)[s := x]
      {
        var b := allBuffers[i];
        if kinds[s].bit !in b.flags {
          b.slots := b.slots[s := x];
        }
      }
      assert allBuffers[..|allBuffers|] == allBuffers;
    }

    /** set-default: the slots of the buffers that see the default change with it. */
    method SetDefault(s: nat, x: Value)
      requires Valid() && s < |kinds| && kinds[s] != NotLisp
      modifies this`defaults, allBuffers
      ensures Valid() && VarOf(s) == old(VarOf(s)).(dflt := x)
      ensures forall t :: 0 <= t < |kinds| && t != s ==> VarOf(t) == old(VarOf(t))
    {
      assert forall b :: b in allBuffers ==> BufferOk(b);
      defaults := defaults[s := x];
      if kinds[s].Masked? {
        Spread(s, x);
      }
      VarIs(s, old(VarOf(s)).(dflt := x));
      forall t | 0 <= t < |kinds| && t != s
        ensures VarOf(t) == old(VarOf(t))
      {
        VarIs(t, old(VarOf(t)));
      }
    }

    /** kill-local-variable. */
    method KillLocal(s: nat)
      requires Valid() && s < |kinds|
      modifies current
      ensures Valid() && VarOf(s) == if kinds[s].Masked? then SpecKillLocal(old(VarOf(s)), current) else old(VarOf(s))
      ensures forall t :: 0 <= t < |kinds| && t != s ==> VarOf(t) == old(VarOf(t))
    {
      assert BufferOk(current);
      if kinds[s].Masked? {
        current.slots := current.slots[s := defaults[s]];
        current.flags := current.flags - {kinds[s].bit};
      }
      assert forall b :: b in allBuffers ==> old(BufferOk(b));
      VarIs(s, if kinds[s].Masked? then SpecKillLocal(old(VarOf(s)), current) else old(VarOf(s)));
      forall t | 0 <= t < |kinds| && t != s
        ensures VarOf(t) == old(VarOf(t))
      {
        VarIs(t, old(VarOf(t)));
      }
    }

    /** reset_buffer_local_variables. */
    method ResetLocals(b: Buffer)
      requires |b.slots| == |kinds| == |defaults|
      modifies b
      ensures b.flags == {} && |b.slots| == |kinds|
      ensures forall s :: 0 <= s < |kinds| ==>
                b.slots[s] == ResetOf(kinds[s], old(b.slots[s]), defaults[s])
    {
      b.flags := {};
      for s := 0 to |kinds|
        invariant b.flags == {} && |b.slots| == |kinds|
        invariant forall t :: 0 <= t < |kinds| ==>
                    b.slots[t] == if t < s then ResetOf(kinds[t], old(b.slots[t]), defaults[t]) else old(b.slots[t])
      {
        if kinds[s].Mode? {
          b.slots := b.slots[s := kinds[s].fundamental];
        }
        if kinds[s].Masked? || kinds[s].AlwaysReset? {
          b.slots := b.slots[s := defaults[s]];
        }
      }
    }

    /** kill-all-local-variables. */
    method KillAllLocals()
      requires Valid()
      modifies current
      ensures Valid()
      ensures forall s :: 0 <= s < |kinds| ==>
                VarOf(s) == if kinds[s].Masked? then SpecKillLocal(old(VarOf(s)), current)
                            else var v := old(VarOf(s)); SpecSet(v, current, ResetOf(kinds[s], Get(v, current), v.dflt))
    {
      assert BufferOk(current);
      ResetLocals(current);
      assert forall b :: b in allBuffers ==> old(BufferOk(b));
    }

    /** get-buffer-create: the new buffer sees every default; `slots` is what reset_buffer puts in the slots
        that are always local. */
    method NewBuffer(slots: seq<Value>) returns (b: Buffer)
      requires Valid() && |slots| == |kinds|
      modifies this`allBuffers
      ensures Valid() && fresh(b) && allBuffers == [b] + old(allBuffers)
      ensures forall s :: 0 <= s < |kinds| ==>
                if kinds[s].Masked? then VarOf(s) == old(VarOf(s)) && Get(VarOf(s), b) == defaults[s]
                else VarOf(s) == SpecSet(old(VarOf(s)), b, ResetOf(kinds[s], slots[s], defaults[s]))
    {
      assert forall c :: c in allBuffers ==> BufferOk(c);
      b := new Buffer(slots, {});
      ResetLocals(b);
      allBuffers := [b] + allBuffers;
      forall s | 0 <= s < |kinds|
        ensures if kinds[s].Masked? then VarOf(s) == old(VarOf(s))
                else VarOf(s) == SpecSet(old(VarOf(s)), b, ResetOf(kinds[s], slots[s], defaults[s]))
      {
        if kinds[s].Masked? {
          assert !Local(b, s);
          VarIs(s, old(VarOf(s)));
        } else {
          VarIs(s, SpecSet(old(VarOf(s)), b, ResetOf(kinds[s], slots[s], defaults[s])));
        }
      }
    }

    /** set-buffer. */
    method SetBuffer(b: Buffer)
      requires Valid() && b in allBuffers
      modifies this`current
      ensures Valid() && current == b && forall s :: 0 <= s < |kinds| ==> VarOf(s) == old(VarOf(s))
    {
      current := b;
    }

    ghost predicate Known(op: Op)
      reads this`allBuffers
    {
      match op
      case SetBuffer(b) => b in allBuffers
      case KillAllLocals => true
      case SymbolValue(s) => s < |kinds|
      case DefaultValue(s) => s < |kinds| && kinds[s] != NotLisp
      case Set(s, _) => s < |kinds|
      case SetDefault(s, _) => s < |kinds| && kinds[s] != NotLisp
      case KillLocal(s) => s < |kinds|
    }

    /** One operation. */
    method Do(op: Op) returns (r: Result)
      requires Valid() && Known(op)
      modifies this`current, this`defaults, allBuffers
      ensures Valid() && current == if op.SetBuffer? then op.b else old(current)
      ensures forall s :: 0 <= s < |kinds| ==> VarOf(s) == Effect(op, old(current), s, kinds[s], old(VarOf(s)))
      ensures op.SymbolValue? || op.DefaultValue? ==> r == Outcome(op, old(current), old(VarOf(op.s)))
    {
      hide VarOf, Local;
      r := Done;
      match op {
        case SetBuffer(b) => SetBuffer(b);
        case KillAllLocals => KillAllLocals();
        case SymbolValue(s) =>
          var x := SymbolValue(s);
          r := Ok(x);
        case DefaultValue(s) =>
          var x := DefaultValue(s);
          r := Ok(x);
        case Set(s, x) => Set(s, x);
        case SetDefault(s, x) => SetDefault(s, x);
        case KillLocal(s) => KillLocal(s);
      }
    }

    /** The answer `r` to operation `i` of a session is the one the plain variables give. */
    twostate predicate Answers(ops: seq<Op>, i: nat, r: Result)
      requires i < |ops| && old(Valid() && Known(ops[i]))
    {
      ops[i].SymbolValue? || ops[i].DefaultValue? ==>
        var s := ops[i].s;
        r == Outcome(ops[i], CurrentAfter(ops, i, old(current)), VarAfter(ops, i, old(current), s, kinds[s], old(VarOf(s))))
    }

    /** A whole session: every answer is the one the plain variables give. */
    method Run(ops: seq<Op>) returns (outs: seq<Result>)
      requires Valid() && forall i :: 0 <= i < |ops| ==> Known(ops[i])
      modifies this`current, this`defaults, allBuffers
      ensures Valid() && |outs| == |ops| && current == CurrentAfter(ops, |ops|, old(current))
      ensures forall s :: 0 <= s < |kinds| ==> VarOf(s) == VarAfter(ops, |ops|, old(current), s, kinds[s], old(VarOf(s)))
      ensures forall i :: 0 <= i < |ops| ==> Answers(ops, i, outs[i])
    {
      hide Outcome, Effect, VarOf, Local;
      outs := [];
      for n := 0 to |ops|
        invariant Valid() && |outs| == n && current == CurrentAfter(ops, n, old(current))
        invariant forall s :: 0 <= s < |kinds| ==> VarOf(s) == VarAfter(ops, n, old(current), s, kinds[s], old(VarOf(s)))
        invariant forall i :: 0 <= i < n ==> Answers(ops, i, outs[i])
      {
        var r := Do(ops[n]);
        assert Answers(ops, n, r);
        outs := outs + [r];
      }
    }
  }

  // ---- init_buffer_once ----

  function Power(n: nat): nat {
    if n == 0 then 1 else 2 * Power(n - 1)
  }

  const SLOTS: nat := 35             // from `name` to `fieldlist`

  /** buffer_local_flags: the slots are numbered from `name` on. */
  function Flag(s: nat): int {
    if s == 11 then 1                // mode_line_format
    else if s == 29 then 2           // abbrev_mode
    else if s == 28 then 4           // overwrite_mode
    else if s == 16 then 8           // case_fold_search
    else if s == 15 then 0x10        // auto_fill_hook
    else if s == 25 then 0x20        // selective_display
    else if s == 26 then 0x40        // selective_display_ellipses
    else if s == 17 then 0x80        // tab_width
    else if s == 23 then 0x100       // truncate_lines
    else if s == 24 then 0x200       // ctl_arrow
    else if s == 18 then 0x400       // fill_column
    else if s == 19 then 0x800       // left_margin
    else if s == 13 then 0x1000      // abbrev_table
    else if s == 14 then 0x2000      // syntax_table
    else if 1 <= s <= 6 || 9 <= s <= 10 || s == 33 then -1   // filename to read_only, major_mode, mode_name, undo_list
    else 0
  }

  /** The number of the bit that a mask has, if it has one only. */
  function BitOf(mask: nat): nat {
    if mask <= 1 then 0 else 1 + BitOf(mask / 2)
  }

  lemma {:induction false} BitOfPower(n: nat)
    ensures Power(n) > 0 && BitOf(Power(n)) == n
  {
    if n > 0 {
      BitOfPower(n - 1);
    }
  }

  /** What an entry of buffer_local_flags means.  The major mode and its name are made those of Fundamental mode by
      resetting, and the keymap, which is no Lisp variable, nil. */
  function KindOf(s: nat, flag: int, mode: Value, modeName: Value): Slot {
    if s == 9 then Mode(mode) else if s == 10 then Mode(modeName) else if s == 12 then Mode(Nil)
    else if flag > 0 then Masked(BitOf(flag))
    else if flag == -1 then Always else if flag == -2 then AlwaysReset else NotLisp
  }

  function InitialKinds(mode: Value, modeName: Value): (kinds: seq<Slot>)
    ensures |kinds| == SLOTS
    ensures forall s :: 0 <= s < SLOTS ==> kinds[s] == KindOf(s, Flag(s), mode, modeName)
  {
    seq(SLOTS, s requires 0 <= s < SLOTS => KindOf(s, Flag(s), mode, modeName))
  }

  lemma PowersOfTwo()
    ensures Power(0) == 1 && Power(1) == 2 && Power(2) == 4 && Power(3) == 8 && Power(4) == 0x10 && Power(5) == 0x20
    ensures Power(6) == 0x40 && Power(7) == 0x80 && Power(8) == 0x100 && Power(9) == 0x200 && Power(10) == 0x400
    ensures Power(11) == 0x800 && Power(12) == 0x1000 && Power(13) == 0x2000
  {
    assert Power(4) == 0x10;
    assert Power(8) == 0x100;
    assert Power(12) == 0x1000;
  }

  /** A mask has one bit only. */
  lemma MaskIsPower(s: nat)
    requires Flag(s) > 0
    ensures Flag(s) == Power(BitOf(Flag(s)))
  {
    hide BitOf, Power;
    PowersOfTwo();
    for k: nat := 0 to 14
      invariant forall i :: 0 <= i < k ==> BitOf(Power(i)) == i
    {
      BitOfPower(k);
    }
    var i: nat :| i < 14 && Flag(s) == Power(i);
  }

  /** Different masks are different bits: setting one slot's bit never makes another slot local. */
  lemma MasksDisjoint(mode: Value, modeName: Value)
    ensures forall s :: 0 <= s < SLOTS && Flag(s) > 0 ==>
              Flag(s) == Power(BitOf(Flag(s))) && InitialKinds(mode, modeName)[s] == Masked(BitOf(Flag(s)))
    ensures Disjoint(InitialKinds(mode, modeName))
  {
    hide BitOf, Power;
    var kinds := InitialKinds(mode, modeName);
    forall s | 0 <= s < SLOTS && Flag(s) > 0
      ensures Flag(s) == Power(BitOf(Flag(s))) && kinds[s] == Masked(BitOf(Flag(s)))
    {
      MaskIsPower(s);
    }
    forall s, t | 0 <= s < |kinds| && 0 <= t < |kinds| && s != t && kinds[s].Masked? && kinds[t].Masked?
      ensures kinds[s].bit != kinds[t].bit
    {
      assert Flag(s) != Flag(t);
    }
  }

  /** init_buffer_once, as far as slots go: the world starts with these kinds. */
  method InitBufferOnce(defaults: seq<Value>, slots: seq<Value>, mode: Value, modeName: Value) returns (w: World)
    requires |defaults| == |slots| == SLOTS
    ensures w.Valid() && w.kinds == InitialKinds(mode, modeName) && w.defaults == defaults
  {
    MasksDisjoint(mode, modeName);
    w := new World(InitialKinds(mode, modeName), defaults, slots);
  }
}
