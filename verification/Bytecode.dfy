/** The byte-code interpreter as a stack machine: operands in a fixed stretch of memory, bindings on specpdl. */
module Bytecode {
  import opened Common

  /** What the interpreter looks at in a Lisp object. */
  datatype Value = Nil | Other(n: int)

  datatype Binding = Variable(constant: nat) | Excursion | Restriction | Protected(form: Value) | StandardOutput

  /** The arguments of byte-code. */
  datatype Program = Program(code: seq<nat>, constants: seq<Value>, maxdepth: nat)

  /** What the rest of Lisp does when an instruction calls it: it gives a value, or it never returns. */
  datatype Answer = Gives(v: Value) | Throws

  // ---- opcodes ----

  /** Two operands give way to one: the second is popped. */
  predicate Popping2(op: nat) {
    op == 56 || 61 <= op <= 62 || op == 66 || op == 68 || op == 72 || 76 <= op <= 78 || 85 <= op <= 89 ||
    op == 141
  }

  /** Three: two are popped. */
  predicate Popping3(op: nat) {
    op == 73 || op == 79 || op == 143
  }

  /** Two, given to a function as an array. */
  predicate Discarding2(op: nat) {
    op == 80 || op == 90 || 92 <= op <= 94
  }

  /** Three, as an array. */
  predicate Discarding3(op: nat) {
    op == 69 || op == 81
  }

  /** Four, as an array. */
  predicate Discarding4(op: nat) {
    op == 70 || op == 82
  }

  /** One operand gives way to another. */
  predicate Replacing(op: nat) {
    57 <= op <= 60 || 63 <= op <= 65 || op == 67 || op == 71 || 74 <= op <= 75 || 83 <= op <= 84 || op == 91 ||
    98 <= op <= 99 || op == 102 || op == 106 || op == 113 || op == 115 || op == 139
  }

  /** One more operand. */
  predicate Pushing(op: nat) {
    96 <= op <= 97 || 100 <= op <= 101 || 103 <= op <= 105 || 108 <= op <= 112 || op == 114 || op == 116
  }

  const SCAN_BUFFER: nat := 107
  const CONSTANT2: nat := 129
  const GOTO: nat := 130
  const GOTO_IF_NIL: nat := 131
  const GOTO_IF_NONNIL: nat := 132
  const GOTO_IF_NIL_ELSE_POP: nat := 133
  const GOTO_IF_NONNIL_ELSE_POP: nat := 134
  const RETURN: nat := 135
  const DISCARD: nat := 136
  const DUP: nat := 137
  const SAVE_EXCURSION: nat := 138
  const SAVE_RESTRICTION: nat := 140
  const UNWIND_PROTECT: nat := 142
  const TEMP_OUTPUT_BUFFER_SETUP: nat := 144
  const TEMP_OUTPUT_BUFFER_SHOW: nat := 145
  const CONSTANT: nat := 192

  /** Instructions by what they do to the two stacks. */
  datatype Instr =
    | Varref(constant: nat) | Varset(constant: nat) | Varbind(constant: nat) | Constant(constant: nat)
    | Apply(n: nat)                  // `n` operands give way to one
    | Push                           // one more operand
    | Unbind(n: nat)
    | Goto(to: nat) | GotoIf(nil: bool, to: nat) | GotoElsePop(nil: bool, to: nat)
    | Return | Discard | Dup
    | Save(binding: Binding) | Protect | Setup | Show
    | ScanBuffer | Nothing

  /** A byte of the program; a null follows the last one. */
  function Byte(code: seq<nat>, at: nat): Option<nat> {
    if at < |code| then Some(code[at]) else if at == |code| then Some(0) else None
  }

  /** FETCH2. */
  function Byte2(code: seq<nat>, at: nat): Option<nat> {
    match (Byte(code, at), Byte(code, at + 1))
    case (Some(low), Some(high)) => Some(low + high * 256)
    case _ => None
  }

  /** The operand of an instruction that has it in its three low bits, or in a byte, or in two; and how long
      the instruction is. */
  function Operand(code: seq<nat>, at: nat, op: nat): Option<(nat, nat)> {
    if op % 8 < 6 then Some((op % 8, 1))
    else if op % 8 == 6 then
      match Byte(code, at + 1)
      case Some(n) => Some((n, 2))
      case None => None
    else
      match Byte2(code, at + 1)
      case Some(n) => Some((n, 3))
      case None => None
  }

  predicate ForSpecpdl(op: nat) {
    || op == SAVE_EXCURSION || op == SAVE_RESTRICTION || op == UNWIND_PROTECT
    || op == TEMP_OUTPUT_BUFFER_SETUP || op == TEMP_OUTPUT_BUFFER_SHOW
  }

  predicate HasOperand(op: nat) {
    8 <= op < 48
  }

  predicate HasTarget(op: nat) {
    CONSTANT2 <= op <= GOTO_IF_NONNIL_ELSE_POP
  }

  /** QUIT comes first in the gotos. */
  predicate Polls(op: nat) {
    GOTO <= op <= GOTO_IF_NONNIL_ELSE_POP
  }

  function WithOperand(op: nat, n: nat): Instr
    requires HasOperand(op)
  {
    if op < 16 then Varref(n) else if op < 24 then Varset(n) else if op < 32 then Varbind(n)
    else if op < 40 then Apply(n + 1) else Unbind(n)
  }

  function WithTarget(op: nat, n: nat): Instr
    requires HasTarget(op)
  {
    if op == CONSTANT2 then Constant(n)
    else if op == GOTO then Goto(n)
    else if op <= GOTO_IF_NONNIL then GotoIf(op == GOTO_IF_NIL, n)
    else GotoElsePop(op == GOTO_IF_NIL_ELSE_POP, n)
  }

  /** The other opcodes.  Those that mean nothing do nothing. */
  function Plain(op: nat): Instr {
    if Replacing(op) then Apply(1)
    else if Popping2(op) || Discarding2(op) then Apply(2)
    else if Popping3(op) || Discarding3(op) then Apply(3)
    else if Discarding4(op) then Apply(4)
    else if Pushing(op) then Push
    else if op == SCAN_BUFFER then ScanBuffer
    else if op == RETURN then Return
    else if op == DISCARD then Discard
    else if op == DUP then Dup
    else if op == SAVE_EXCURSION then Save(Excursion)
    else if op == SAVE_RESTRICTION then Save(Restriction)
    else if op == UNWIND_PROTECT then Protect
    else if op == TEMP_OUTPUT_BUFFER_SETUP then Setup
    else if op == TEMP_OUTPUT_BUFFER_SHOW then Show
    else if CONSTANT <= op < CONSTANT + 64 then Constant(op - CONSTANT)
    else Nothing
  }

  /** The instruction at `at` and where the next one is, unless it runs over the end of the program. */
  function Decode(code: seq<nat>, at: nat): Option<(Instr, nat)> {
    match Byte(code, at)
    case None => None
    case Some(op) =>
      if HasOperand(op) then
        match Operand(code, at, op)
        case Some(o) => Some((WithOperand(op, o.0), at + o.1))
        case None => None
      else if HasTarget(op) then
        match Byte2(code, at + 1)
        case Some(n) => Some((WithTarget(op, n), at + 3))
        case None => None
      else Some((Plain(op), at + 1))
  }

  lemma PlainStack(op: nat)
    requires RETURN <= op <= DUP
    ensures Plain(op) == if op == RETURN then Return else if op == DISCARD then Discard else Dup
  {
  }

  lemma PlainSpecpdl(op: nat)
    requires ForSpecpdl(op)
    ensures Plain(op) == if op == SAVE_EXCURSION then Save(Excursion)
                         else if op == SAVE_RESTRICTION then Save(Restriction)
                         else if op == UNWIND_PROTECT then Protect
                         else if op == TEMP_OUTPUT_BUFFER_SETUP then Setup else Show
  {
  }

  // ---- what an instruction does ----

  /** `sp` operands in `cells`. */
  datatype State = State(pc: nat, cells: seq<Value>, sp: int, specpdl: seq<Binding>)

  /** Wild: memory outside the operand stack, the constants, the program or specpdl was read. */
  datatype Why = Overflow | Underflow | Abort | Thrown | Wild

  datatype Next = Go(s: State) | Returned(v: Value, specpdl: seq<Binding>) | Stop(why: Why)

  /** A push on a full stack writes past its end; the check before the next instruction is what sees that. */
  function Pushed(s: State, v: Value): State
    requires 0 <= s.sp <= |s.cells|
  {
    if s.sp < |s.cells| then s.(cells := s.cells[s.sp := v], sp := s.sp + 1) else s.(sp := s.sp + 1)
  }

  /** Make the top `n` operands one. */
  function Applied(s: State, n: nat, v: Value): State
    requires 1 <= n <= s.sp <= |s.cells|
  {
    s.(cells := s.cells[s.sp - n := v], sp := s.sp - n + 1)
  }

  function Drop(specpdl: seq<Binding>, n: nat): seq<Binding>
    requires n <= |specpdl|
  {
    specpdl[..|specpdl| - n]
  }

  /** What instruction `i` does in `s`, the state after it was fetched; `count` is how long specpdl was when
      the program started. */
  function Perform(p: Program, count: nat, i: Instr, s: State, a: Answer): Next
    requires 0 <= s.sp <= |s.cells|
  {
    match i
    case Varref(k) =>
      if k >= |p.constants| then Stop(Wild) else if a.Throws? then Stop(Thrown) else Go(Pushed(s, a.v))
    case Varset(k) =>
      if k >= |p.constants| || s.sp < 1 then Stop(Wild) else if a.Throws? then Stop(Thrown) else Go(s.(sp := s.sp - 1))
    case Varbind(k) =>
      if k >= |p.constants| || s.sp < 1 then Stop(Wild) else if a.Throws? then Stop(Thrown)
      else Go(s.(sp := s.sp - 1, specpdl := s.specpdl + [Variable(k)]))
    case Constant(k) => if k >= |p.constants| then Stop(Wild) else Go(Pushed(s, p.constants[k]))
    case Apply(n) =>
      if s.sp < n || n == 0 then Stop(Wild) else if a.Throws? then Stop(Thrown) else Go(Applied(s, n, a.v))
    case Push => if a.Throws? then Stop(Thrown) else Go(Pushed(s, a.v))
    case Unbind(n) =>
      if n > |s.specpdl| then Stop(Wild) else if a.Throws? then Stop(Thrown) else Go(s.(specpdl := Drop(s.specpdl, n)))
    case Goto(to) => Go(s.(pc := to))
    case GotoIf(nil, to) =>
      if s.sp < 1 then Stop(Wild)
      else Go(s.(sp := s.sp - 1, pc := if (s.cells[s.sp - 1] == Nil) == nil then to else s.pc))
    case GotoElsePop(nil, to) =>
      if s.sp < 1 then Stop(Wild)
      else if (s.cells[s.sp - 1] == Nil) == nil then Go(s.(pc := to)) else Go(s.(sp := s.sp - 1))
    case Return =>
      if s.sp < 1 then Stop(Wild)
      else if |s.specpdl| != count then Stop(Abort) else Returned(s.cells[s.sp - 1], s.specpdl)
    case Discard => Go(s.(sp := s.sp - 1))
    case Dup => if s.sp < 1 then Stop(Wild) else Go(Pushed(s, s.cells[s.sp - 1]))
    case Save(b) => if a.Throws? then Stop(Thrown) else Go(s.(specpdl := s.specpdl + [b]))
    case Protect =>
      if s.sp < 1 then Stop(Wild) else if a.Throws? then Stop(Thrown)
      else Go(s.(sp := s.sp - 1, specpdl := s.specpdl + [Protected(s.cells[s.sp - 1])]))
    case Setup =>
      if s.sp < 1 then Stop(Wild) else if a.Throws? then Stop(Thrown)
      else Go(Applied(s, 1, a.v).(specpdl := s.specpdl + [StandardOutput]))
    case Show =>
      if s.sp < 2 || |s.specpdl| < 1 then Stop(Wild) else if a.Throws? then Stop(Thrown)
      else Go(Applied(s, 2, s.cells[s.sp - 1]).(specpdl := Drop(s.specpdl, 1)))
    case ScanBuffer => if a.Throws? then Stop(Thrown) else Go(s)
    case Nothing => Go(s)
  }

  /** One round of the loop. */
  function Step(p: Program, count: nat, s: State, a: Answer): Next {
    if s.sp > |s.cells| then Stop(Overflow)
    else if s.sp < 0 then Stop(Underflow)
    else
      var op := Byte(p.code, s.pc);
      if op.Some? && Polls(op.value) && a.Throws? then Stop(Thrown)
      else
        match Decode(p.code, s.pc)
        case None => Stop(Wild)
        case Some(i) => Perform(p, count, i.0, s.(pc := i.1), a)
  }

  /** As many rounds as there are answers, or fewer if it is over before that. */
  function Steps(p: Program, count: nat, s: State, answers: seq<Answer>): Next
    decreases |answers|
  {
    if answers == [] then Go(s)
    else
      var n := Step(p, count, s, answers[0]);
      if n.Go? then Steps(p, count, n.s, answers[1..]) else n
  }

  // ---- programs whose depths are consistent ----

  /** How many operands there are and how many bindings were made. */
  datatype Depths = Depths(operands: nat, bindings: nat)

  ghost predicate Leads(depths: map<nat, Depths>, to: nat, operands: int, bindings: int) {
    to in depths && depths[to].operands == operands && depths[to].bindings == bindings
  }

  /** The instruction finds what it needs on both stacks and leaves what those that may follow expect. */
  ghost predicate Agrees(p: Program, depths: map<nat, Depths>, i: Instr, next: nat, d: nat, b: nat) {
    match i
    case Varref(k) => k < |p.constants| && Leads(depths, next, d + 1, b)
    case Varset(k) => k < |p.constants| && Leads(depths, next, d - 1, b)
    case Varbind(k) => k < |p.constants| && Leads(depths, next, d - 1, b + 1)
    case Constant(k) => k < |p.constants| && Leads(depths, next, d + 1, b)
    case Apply(n) => 1 <= n <= d && Leads(depths, next, d - n + 1, b)
    case Push => Leads(depths, next, d + 1, b)
    case Unbind(n) => Leads(depths, next, d, b - n)
    case Goto(to) => Leads(depths, to, d, b)
    case GotoIf(_, to) => Leads(depths, to, d - 1, b) && Leads(depths, next, d - 1, b)
    case GotoElsePop(_, to) => d >= 1 && Leads(depths, to, d, b) && Leads(depths, next, d - 1, b)
    case Return => d >= 1 && b == 0
    case Discard => Leads(depths, next, d - 1, b)
    case Dup => d >= 1 && Leads(depths, next, d + 1, b)
    case Save(_) => Leads(depths, next, d, b + 1)
    case Protect => Leads(depths, next, d - 1, b + 1)
    case Setup => d >= 1 && Leads(depths, next, d, b + 1)
    case Show => d >= 2 && Leads(depths, next, d - 1, b - 1)
    case ScanBuffer => Leads(depths, next, d, b)
    case Nothing => Leads(depths, next, d, b)
  }

  ghost predicate Consistent(p: Program, depths: map<nat, Depths>) {
    && Leads(depths, 0, 0, 0)
    && forall pc :: pc in depths ==>
         var i := Decode(p.code, pc);
         && depths[pc].operands <= p.maxdepth
         && i.Some? && Agrees(p, depths, i.value.0, i.value.1, depths[pc].operands, depths[pc].bindings)
  }

  /** The state is as `depths` says; below what the program bound, specpdl is as it was. */
  ghost predicate Fits(p: Program, depths: map<nat, Depths>, specpdl: seq<Binding>, s: State) {
    && |s.cells| == p.maxdepth && specpdl <= s.specpdl
    && Leads(depths, s.pc, s.sp, |s.specpdl| - |specpdl|)
  }

  lemma PerformFits(p: Program, depths: map<nat, Depths>, specpdl: seq<Binding>, i: Instr, s: State, s': State,
                    a: Answer)
    requires forall pc :: pc in depths ==> depths[pc].operands <= p.maxdepth
    requires Fits(p, depths, specpdl, s) && s' == s.(pc := s'.pc)
    requires Agrees(p, depths, i, s'.pc, depths[s.pc].operands, depths[s.pc].bindings)
    ensures match Perform(p, |specpdl|, i, s', a)
            case Go(t) => Fits(p, depths, specpdl, t)
            case Returned(_, left) => left == specpdl
            case Stop(why) => why == Thrown && a.Throws?
  {
    assert depths[s.pc].operands <= p.maxdepth;
  }

  lemma StepFits(p: Program, depths: map<nat, Depths>, specpdl: seq<Binding>, s: State, a: Answer)
    requires Consistent(p, depths) && Fits(p, depths, specpdl, s)
    ensures match Step(p, |specpdl|, s, a)
            case Go(t) => Fits(p, depths, specpdl, t)
            case Returned(_, left) => left == specpdl
            case Stop(why) => why == Thrown && a.Throws?
  {
    hide Decode, Perform, Agrees;
    assert s.pc in depths && depths[s.pc].operands <= p.maxdepth;
    var i := Decode(p.code, s.pc).value;
    PerformFits(p, depths, specpdl, i.0, s, s.(pc := i.1), a);
  }

  /** However long a program with consistent depths runs, whatever it calls does: the operands are as many as
      was said for each place, no memory but its own is used, there is no error and no abort, and when it
      returns specpdl is what it was. */
  lemma {:induction false} RunsFit(p: Program, depths: map<nat, Depths>, specpdl: seq<Binding>, s: State,
                                   answers: seq<Answer>)
    requires Consistent(p, depths) && Fits(p, depths, specpdl, s)
    ensures match Steps(p, |specpdl|, s, answers)
            case Go(t) => Fits(p, depths, specpdl, t)
            case Returned(_, left) => left == specpdl
            case Stop(why) => why == Thrown && Throws in answers
    decreases |answers|
  {
    if answers != [] {
      StepFits(p, depths, specpdl, s, answers[0]);
      var n := Step(p, |specpdl|, s, answers[0]);
      if n.Go? {
        RunsFit(p, depths, specpdl, n.s, answers[1..]);
      }
    }
  }

  // ---- what the two checks are worth ----

  predicate Pushes(i: Instr) {
    i.Varref? || i.Constant? || i.Push? || i.Dup?
  }

  lemma PerformBounded(p: Program, count: nat, i: Instr, s: State, a: Answer)
    requires 0 <= s.sp <= |s.cells|
    ensures match Perform(p, count, i, s, a)
            case Go(t) =>
              && |t.cells| == |s.cells|
              && (t.sp > |t.cells| <==> s.sp == |s.cells| && Pushes(i)) && (t.sp < 0 <==> s.sp == 0 && i == Discard)
            case Returned(_, _) => i == Return
            case Stop(why) => why != Overflow && why != Underflow && i != Discard
  {
  }

  /** The overflow check is one instruction late: it speaks exactly if the instruction before it has pushed on a
      full stack, and so written past the end. */
  lemma OverflowByPush(p: Program, count: nat, s: State, a: Answer, b: Answer)
    requires 0 <= s.sp <= |s.cells| && Step(p, count, s, a).Go?
    ensures Step(p, count, Step(p, count, s, a).s, b) == Stop(Overflow) <==>
            s.sp == |s.cells| && Pushes(Decode(p.code, s.pc).value.0)
  {
    hide Perform, Decode;
    var i := Decode(p.code, s.pc).value;
    PerformBounded(p, count, i.0, s.(pc := i.1), a);
    var t := Step(p, count, s, a).s;
    if 0 <= t.sp <= |t.cells| {
      var j := Decode(p.code, t.pc);
      if j.Some? {
        PerformBounded(p, count, j.value.0, t.(pc := j.value.1), b);
      }
    }
  }

  /** The other check speaks if the instruction before it was a discard on an empty stack; other instructions that
      lack operands have read outside the stack before it can. */
  lemma UnderflowByDiscard(p: Program, count: nat, s: State, a: Answer)
    requires 0 <= s.sp <= |s.cells|
    ensures var n := Step(p, count, s, a);
            n.Go? && n.s.sp < 0 <==> s.sp == 0 && Byte(p.code, s.pc) == Some(DISCARD)
  {
    hide Perform, Plain, WithOperand, WithTarget, Operand;
    DecodeDiscard(p.code, s.pc);
    var i := Decode(p.code, s.pc);
    if i.Some? {
      PerformBounded(p, count, i.value.0, s.(pc := i.value.1), a);
    }
  }

  lemma DecodeDiscard(code: seq<nat>, at: nat)
    ensures Byte(code, at) == Some(DISCARD) <==> Decode(code, at).Some? && Decode(code, at).value.0 == Discard
  {
    var op := Byte(code, at);
    if op.Some? && op.value != DISCARD && !HasOperand(op.value) && !HasTarget(op.value) {
      assert Plain(op.value) != Discard;
    }
  }

  // ---- the interpreter ----

  datatype Status = Running | Exit(v: Value) | Halt(why: Why)

  /** What a round that ended with `r` in state `now` comes to. */
  ghost function Outcome(r: Status, now: State): Next {
    match r
    case Running => Go(now)
    case Exit(v) => Returned(v, now.specpdl)
    case Halt(why) => Stop(why)
  }

  /** A round that ended with `r` in state `now` is what `next` says. */
  ghost predicate As(r: Status, now: State, next: Next) {
    match next
    case Go(s) => r == Running && now == s
    case Returned(v, specpdl) => r == Exit(v) && now.specpdl == specpdl
    case Stop(why) => r == Halt(why)
  }

  // ---- the instructions, one by one ----

  /** How many operands an instruction that calls a function replaces by the result. */
  function Takes(op: nat): nat {
    match op
    case 56 => 2   // nth
    case 57 => 1   // symbolp
    case 58 => 1   // consp
    case 59 => 1   // stringp
    case 60 => 1   // listp
    case 61 => 2   // eq
    case 62 => 2   // memq
    case 63 => 1   // not
    case 64 => 1   // car
    case 65 => 1   // cdr
    case 66 => 2   // cons
    case 67 => 1   // list1
    case 68 => 2   // list2
    case 69 => 3   // list3
    case 70 => 4   // list4
    case 71 => 1   // length
    case 72 => 2   // aref
    case 73 => 3   // aset
    case 74 => 1   // symbol-value
    case 75 => 1   // symbol-function
    case 76 => 2   // set
    case 77 => 2   // fset
    case 78 => 2   // get
    case 79 => 3   // substring
    case 80 => 2   // concat2
    case 81 => 3   // concat3
    case 82 => 4   // concat4
    case 83 => 1   // sub1
    case 84 => 1   // add1
    case 85 => 2   // =
    case 86 => 2   // >
    case 87 => 2   // <
    case 88 => 2   // <=
    case 89 => 2   // >=
    case 90 => 2   // -
    case 91 => 1   // negate
    case 92 => 2   // +
    case 93 => 2   // max
    case 94 => 2   // min
    case 98 => 1   // goto-char
    case 99 => 1   // insert
    case 102 => 1  // char-after
    case 106 => 1  // indent-to
    case 113 => 1  // set-buffer
    case 115 => 1  // set-mark
    case 139 => 1  // save-window-excursion
    case 141 => 2  // catch
    case 143 => 3  // condition-case
    case _ => 0
  }

  lemma TakesThat(op: nat)
    ensures if Takes(op) > 0 then Plain(op) == Apply(Takes(op)) && !HasOperand(op) && !HasTarget(op) else !Plain(op).Apply?
  {
  }

  /** The instruction at `pc` has the operand `k`, which is in its three low bits, or in the next byte, or in the next
      two, the low one first; and the next instruction is at `next`. */
  ghost predicate OperandIs(code: seq<nat>, pc: nat, k: nat, next: nat) {
    && pc < |code|
    && if code[pc] % 8 < 6 then k == code[pc] % 8 && next == pc + 1
       else if code[pc] % 8 == 6 then pc + 1 < |code| && k == code[pc + 1] && next == pc + 2
       else pc + 2 < |code| && k == code[pc + 1] + 256 * code[pc + 2] && next == pc + 3
  }

  /** From `s` to `t`: `popped` operands fewer, then those of `pushed` more; the others stay. */
  ghost predicate StackBecomes(s: State, t: State, popped: nat, pushed: seq<Value>) {
    && popped <= s.sp <= |s.cells| == |t.cells| && t.sp == s.sp - popped + |pushed|
    && (t.sp <= |t.cells| ==> t.cells[..t.sp] == s.cells[..s.sp - popped] + pushed)
  }

  /** Variables, calls and unbinding, by what is in the bytes. */
  ghost predicate OperandObeyed(op: nat, s: State, a: Answer, t: State, k: nat) {
    && (8 <= op < 16 ==> a.Gives? && StackBecomes(s, t, 0, [a.v]) && t.specpdl == s.specpdl)
    && (16 <= op < 24 ==> StackBecomes(s, t, 1, []) && t.specpdl == s.specpdl)
    && (24 <= op < 32 ==> StackBecomes(s, t, 1, []) && t.specpdl == s.specpdl + [Variable(k)])
    && (32 <= op < 40 ==> a.Gives? && StackBecomes(s, t, k + 1, [a.v]) && t.specpdl == s.specpdl)
    && (40 <= op < 48 ==> StackBecomes(s, t, 0, []) && k <= |s.specpdl| && t.specpdl == s.specpdl[..|s.specpdl| - k])
  }

  /** Jumps to `to`: 131 is taken if the top is nil and 132 if it is not, and both pop it; 133 and 134 are taken
      likewise, and pop it only if they are not taken.  129 pushes constant `to`. */
  ghost predicate JumpObeyed(p: Program, op: nat, to: nat, s: State, t: State) {
    && t.specpdl == s.specpdl
    && (op == 129 ==> to < |p.constants| && StackBecomes(s, t, 0, [p.constants[to]]) && t.pc == s.pc + 3)
    && (op == 130 ==> StackBecomes(s, t, 0, []) && t.pc == to)
    && (131 <= op <= 134 ==>
          && 1 <= s.sp <= |s.cells|
          && var nil := s.cells[s.sp - 1] == Nil;
          && (op == 131 ==> StackBecomes(s, t, 1, []) && t.pc == if nil then to else s.pc + 3)
          && (op == 132 ==> StackBecomes(s, t, 1, []) && t.pc == if nil then s.pc + 3 else to)
          && (op == 133 ==> if nil then StackBecomes(s, t, 0, []) && t.pc == to
                            else StackBecomes(s, t, 1, []) && t.pc == s.pc + 3)
          && (op == 134 ==> if nil then StackBecomes(s, t, 1, []) && t.pc == s.pc + 3
                            else StackBecomes(s, t, 0, []) && t.pc == to))
  }

  /** The instructions of one byte that only move operands or make bindings. */
  ghost predicate MoveObeyed(p: Program, op: nat, s: State, a: Answer, t: State) {
    && (192 <= op < 256 ==> op - 192 < |p.constants| && StackBecomes(s, t, 0, [p.constants[op - 192]]))
    && (op == 136 ==> t.sp == s.sp - 1 && t.cells == s.cells)
    && (op in {137, 142, 145} ==> 1 <= s.sp <= |s.cells|)
    && (op == 137 ==> StackBecomes(s, t, 0, [s.cells[s.sp - 1]]))
    && (op == 138 ==> StackBecomes(s, t, 0, []) && t.specpdl == s.specpdl + [Excursion])
    && (op == 140 ==> StackBecomes(s, t, 0, []) && t.specpdl == s.specpdl + [Restriction])
    && (op == 142 ==> StackBecomes(s, t, 1, []) && t.specpdl == s.specpdl + [Protected(s.cells[s.sp - 1])])
    && (op == 144 ==> a.Gives? && StackBecomes(s, t, 1, [a.v]) && t.specpdl == s.specpdl + [StandardOutput])
    && (op == 145 ==> StackBecomes(s, t, 2, [s.cells[s.sp - 1]])
                      && |s.specpdl| > 0 && t.specpdl == s.specpdl[..|s.specpdl| - 1])
    && (op !in {138, 140, 142, 144, 145} ==> t.specpdl == s.specpdl)
  }

  /** And those that call a function or get a value from elsewhere. */
  ghost predicate CallObeyed(op: nat, s: State, a: Answer, t: State) {
    && (Takes(op) > 0 ==> a.Gives? && StackBecomes(s, t, Takes(op), [a.v]))
    && (op in {96, 97, 100, 101, 103, 104, 105, 108, 109, 110, 111, 112, 114, 116} ==>
          a.Gives? && StackBecomes(s, t, 0, [a.v]))
  }

  /** What the instructions need in order to go on, where no call throws. */
  ghost predicate OperandReady(p: Program, op: nat, s: State, k: nat) {
    && (op < 32 ==> k < |p.constants|) && (16 <= op < 32 ==> s.sp >= 1) && (32 <= op < 40 ==> s.sp >= k + 1)
    && (40 <= op < 48 ==> k <= |s.specpdl|)
  }

  ghost predicate JumpReady(p: Program, op: nat, to: nat, s: State) {
    (op == 129 ==> to < |p.constants|) && (131 <= op <= 134 ==> s.sp >= 1)
  }

  ghost predicate AloneReady(p: Program, op: nat, s: State) {
    && op != 135 && Takes(op) <= s.sp && (192 <= op < 256 ==> op - 192 < |p.constants|)
    && (op == 137 || op == 142 || op == 144 ==> s.sp >= 1) && (op == 145 ==> s.sp >= 2 && |s.specpdl| >= 1)
  }

  /** Is the opcode one that stands alone? */
  predicate Alone(op: nat) {
    op < 8 || 48 <= op < 129 || op > 134
  }

  /** What a round has done, by the bytes at `pc` and the cells: a round that goes on leads to the state they call for,
      and one that returns `v` has found `v` on top, and specpdl as long as at the start; a throw is never made up. */
  ghost predicate Obeyed(p: Program, count: nat, s: State, a: Answer, n: Next)
    requires s.pc < |p.code|
  {
    var op := p.code[s.pc];
    && (n.Go? && 8 <= op < 48 ==>
          forall k, next :: OperandIs(p.code, s.pc, k, next) ==> n.s.pc == next && OperandObeyed(op, s, a, n.s, k))
    && (a.Gives? && 0 <= s.sp <= |s.cells| ==>
          && (Alone(op) && AloneReady(p, op, s) ==> n.Go?)
          && (op == 135 && s.sp > 0 && |s.specpdl| == count ==> n.Returned?)
          && (129 <= op <= 134 && s.pc + 2 < |p.code| && JumpReady(p, op, p.code[s.pc + 1] + 256 * p.code[s.pc + 2], s) ==> n.Go?)
          && (8 <= op < 48 ==> forall k, next :: OperandIs(p.code, s.pc, k, next) && OperandReady(p, op, s, k) ==> n.Go?))
    && (n.Go? && 129 <= op <= 134 && s.pc + 2 < |p.code| ==>
          JumpObeyed(p, op, p.code[s.pc + 1] + 256 * p.code[s.pc + 2], s, n.s))
    && (n.Go? && Alone(op) ==>
          op != 135 && n.s.pc == s.pc + 1 && MoveObeyed(p, op, s, a, n.s) && CallObeyed(op, s, a, n.s))
    && (n.Returned? ==>
          op == 135 && 1 <= s.sp <= |s.cells| && n.v == s.cells[s.sp - 1] && n.specpdl == s.specpdl && |s.specpdl| == count)
    && (n == Stop(Thrown) ==> a.Throws?)
  }

  lemma StepIs(p: Program, count: nat, s: State, a: Answer, i: Instr, next: nat)
    requires 0 <= s.sp <= |s.cells| && Decode(p.code, s.pc) == Some((i, next))
    ensures Step(p, count, s, a) == Perform(p, count, i, s.(pc := next), a) || (Step(p, count, s, a) == Stop(Thrown) && a.Throws?)
  {
    hide Decode, Perform;
  }

  lemma OperandRule(p: Program, count: nat, s: State, a: Answer, k: nat, next: nat)
    requires 0 <= s.sp <= |s.cells| && OperandIs(p.code, s.pc, k, next) && 8 <= p.code[s.pc] < 48
    ensures var n := Step(p, count, s, a); n.Go? ==> n.s.pc == next && OperandObeyed(p.code[s.pc], s, a, n.s, k)
    ensures a.Gives? && OperandReady(p, p.code[s.pc], s, k) ==> Step(p, count, s, a).Go?
  {
    hide Perform, Step, OperandObeyed, OperandReady;
    DecodeOperand(p.code, s.pc, k, next);
    StepIs(p, count, s, a, WithOperand(p.code[s.pc], k), next);
    OperandPerformed(p, count, p.code[s.pc], k, s, s.(pc := next), a);
  }

  lemma DecodeOperand(code: seq<nat>, pc: nat, k: nat, next: nat)
    requires OperandIs(code, pc, k, next) && 8 <= code[pc] < 48
    ensures Decode(code, pc) == Some((WithOperand(code[pc], k), next))
  {
    hide Plain, WithTarget, WithOperand;
  }

  lemma OperandPerformed(p: Program, count: nat, op: nat, k: nat, s: State, s': State, a: Answer)
    requires 0 <= s.sp <= |s.cells| && HasOperand(op) && s' == s.(pc := s'.pc)
    ensures var n := Perform(p, count, WithOperand(op, k), s', a);
            && (n.Go? ==> n.s.pc == s'.pc && OperandObeyed(op, s, a, n.s, k))
            && (a.Gives? && OperandReady(p, op, s, k) ==> n.Go?)
  {
  }

  lemma JumpRule(p: Program, count: nat, s: State, a: Answer)
    requires 0 <= s.sp <= |s.cells| && s.pc + 2 < |p.code| && 129 <= p.code[s.pc] <= 134
    ensures var n := Step(p, count, s, a);
            var to := p.code[s.pc + 1] + 256 * p.code[s.pc + 2];
            && (n.Go? ==> JumpObeyed(p, p.code[s.pc], to, s, n.s))
            && (a.Gives? && JumpReady(p, p.code[s.pc], to, s) ==> n.Go?)
  {
    hide Perform, Step, JumpObeyed, JumpReady;
    var op, to := p.code[s.pc], p.code[s.pc + 1] + 256 * p.code[s.pc + 2];
    DecodeTarget(p.code, s.pc, to);
    StepIs(p, count, s, a, WithTarget(op, to), s.pc + 3);
    JumpPerformed(p, count, op, to, s, s.(pc := s.pc + 3), a);
  }

  lemma DecodeTarget(code: seq<nat>, pc: nat, to: nat)
    requires pc + 2 < |code| && 129 <= code[pc] <= 134 && to == code[pc + 1] + 256 * code[pc + 2]
    ensures Decode(code, pc) == Some((WithTarget(code[pc], to), pc + 3))
  {
    hide Plain, WithTarget, WithOperand, Operand;
  }

  lemma JumpPerformed(p: Program, count: nat, op: nat, to: nat, s: State, s': State, a: Answer)
    requires 0 <= s.sp <= |s.cells| && HasTarget(op) && s' == s.(pc := s.pc + 3)
    ensures var n := Perform(p, count, WithTarget(op, to), s', a);
            && (n.Go? ==> JumpObeyed(p, op, to, s, n.s))
            && (a.Gives? && JumpReady(p, op, to, s) ==> n.Go?)
  {
  }

  lemma AloneRule(p: Program, count: nat, s: State, a: Answer)
    requires 0 <= s.sp <= |s.cells| && s.pc < |p.code| && Alone(p.code[s.pc])
    ensures var op, n := p.code[s.pc], Step(p, count, s, a);
            && (n.Go? ==> op != 135 && n.s.pc == s.pc + 1 && MoveObeyed(p, op, s, a, n.s) && CallObeyed(op, s, a, n.s))
            && (a.Gives? && AloneReady(p, op, s) ==> n.Go?)
  {
    hide Perform, Step, MoveObeyed, CallObeyed, AloneReady, Takes, Plain, WithTarget, WithOperand, Operand, Byte2;
    var op := p.code[s.pc];
    StepIs(p, count, s, a, Plain(op), s.pc + 1);
    TakesThat(op);
    if Takes(op) > 0 {
      CallPerformed(p, count, op, s, s.(pc := s.pc + 1), a);
    } else {
      MovePerformed(p, count, op, s, s.(pc := s.pc + 1), a);
    }
  }

  lemma TakesOthers(op: nat)
    requires Takes(op) > 0
    ensures op < 95 || 98 <= op <= 99 || op == 102 || op == 106 || op == 113 || op == 115 || op == 139 || op == 141 || op == 143
  {
  }

  lemma CallPerformed(p: Program, count: nat, op: nat, s: State, s': State, a: Answer)
    requires 0 <= s.sp <= |s.cells| && s' == s.(pc := s'.pc) && Takes(op) > 0
    ensures var n := Perform(p, count, Apply(Takes(op)), s', a);
            && (n.Go? ==> op != 135 && n.s.pc == s'.pc && MoveObeyed(p, op, s, a, n.s) && CallObeyed(op, s, a, n.s))
            && (a.Gives? && AloneReady(p, op, s) ==> n.Go?)
  {
    hide Takes;
    TakesOthers(op);
    var t := Takes(op);
    if t <= s.sp && a.Gives? {
      assert Applied(s', t, a.v).cells[..s.sp - t + 1] == s.cells[..s.sp - t] + [a.v];
    }
  }

  lemma MovePerformed(p: Program, count: nat, op: nat, s: State, s': State, a: Answer)
    requires 0 <= s.sp <= |s.cells| && s' == s.(pc := s'.pc) && Takes(op) == 0 && Alone(op) && !Plain(op).Apply?
    ensures var n := Perform(p, count, Plain(op), s', a);
            && (n.Go? ==> op != 135 && n.s.pc == s'.pc && MoveObeyed(p, op, s, a, n.s) && CallObeyed(op, s, a, n.s))
            && (a.Gives? && AloneReady(p, op, s) ==> n.Go?)
  {
    hide Takes;
  }

  lemma EndRule(p: Program, count: nat, s: State, a: Answer)
    requires 0 <= s.sp <= |s.cells| && s.pc < |p.code|
    ensures var op, n := p.code[s.pc], Step(p, count, s, a);
            && (n.Returned? ==> op == 135 && s.sp > 0 && n.v == s.cells[s.sp - 1] && n.specpdl == s.specpdl && |s.specpdl| == count)
            && (n == Stop(Thrown) ==> a.Throws?)
            && (op == 135 && a.Gives? && s.sp > 0 && |s.specpdl| == count ==> n.Returned?)
  {
    hide Perform, Step, Plain, Operand, Byte2, WithTarget, WithOperand;
    var i := Decode(p.code, s.pc);
    PlainStack(135);
    if i.Some? {
      StepIs(p, count, s, a, i.value.0, i.value.1);
      EndPerformed(p, count, i.value.0, s.(pc := i.value.1), a);
      if i.value.0 == Return {
        ReturnIs(p.code, s.pc);
      }
    } else {
      NoDecode(p, count, s, a);
    }
  }

  lemma NoDecode(p: Program, count: nat, s: State, a: Answer)
    requires 0 <= s.sp <= |s.cells| && Decode(p.code, s.pc) == None
    ensures Step(p, count, s, a) == Stop(Wild) || (Step(p, count, s, a) == Stop(Thrown) && a.Throws?)
  {
    hide Decode, Perform;
  }

  lemma EndPerformed(p: Program, count: nat, i: Instr, s: State, a: Answer)
    requires 0 <= s.sp <= |s.cells|
    ensures var n := Perform(p, count, i, s, a);
            && (n.Returned? ==> i == Return && s.sp > 0 && n.v == s.cells[s.sp - 1] && n.specpdl == s.specpdl && |s.specpdl| == count)
            && (n == Stop(Thrown) ==> a.Throws?)
            && (i == Return && s.sp > 0 && |s.specpdl| == count ==> n.Returned?)
  {
  }

  lemma ReturnIs(code: seq<nat>, pc: nat)
    requires pc < |code| && Decode(code, pc).Some? && Decode(code, pc).value.0 == Return
    ensures code[pc] == 135
  {
    var op := code[pc];
    if !HasOperand(op) && !HasTarget(op) {
      assert Plain(op) == Return;
    }
  }

  /** Every round obeys the bytes. */
  lemma StepObeys(p: Program, count: nat, s: State, a: Answer)
    requires s.pc < |p.code|
    ensures Obeyed(p, count, s, a, Step(p, count, s, a))
  {
    hide Perform, Decode, OperandObeyed, JumpObeyed, MoveObeyed, CallObeyed, Takes, OperandIs, OperandReady, JumpReady,
         AloneReady;
    if 0 <= s.sp <= |s.cells| {
      EndRule(p, count, s, a);
      var op := p.code[s.pc];
      if Alone(op) {
        AloneRule(p, count, s, a);
      } else if 129 <= op <= 134 && s.pc + 2 < |p.code| {
        JumpRule(p, count, s, a);
      } else if 8 <= op < 48 {
        forall k, next | OperandIs(p.code, s.pc, k, next)
          ensures var n := Step(p, count, s, a);
                  && (n.Go? ==> n.s.pc == next && OperandObeyed(op, s, a, n.s, k))
                  && (a.Gives? && OperandReady(p, op, s, k) ==> n.Go?)
        {
          OperandRule(p, count, s, a, k, next);
        }
      }
    }
  }

  class Interpreter {
    const p: Program
    const count: nat                 // the length of specpdl at the start
    const cells: array<Value>        // the operand stack
    var sp: int                      // how many of the cells are in use
    var pc: nat
    var specpdl: seq<Binding>

    ghost function Now(): State
      reads this, cells
    {
      State(pc, cells[..], sp, specpdl)
    }

    constructor (p: Program, specpdl: seq<Binding>)
      ensures this.p == p && count == |specpdl| && fresh(cells) && cells.Length == p.maxdepth
      ensures pc == 0 && sp == 0 && this.specpdl == specpdl
    {
      this.p, this.specpdl, count := p, specpdl, |specpdl|;
      sp, pc := 0, 0;
      cells := new Value[p.maxdepth](_ => Nil);
    }

    /** FETCH. */
    method Fetch() returns (b: Option<nat>)
      modifies this`pc
      ensures b == Byte(p.code, old(pc)) && pc == old(pc) + 1
    {
      b := Byte(p.code, pc);
      pc := pc + 1;
    }

    /** FETCH2. */
    method Fetch2() returns (n: Option<nat>)
      modifies this`pc
      ensures n == Byte2(p.code, old(pc)) && pc == old(pc) + 2
    {
      var low := Fetch();
      var high := Fetch();
      n := if low.Some? && high.Some? then Some(low.value + high.value * 256) else None;
    }

    /** The operand of `op`, which was just fetched. */
    method FetchOperand(op: nat, ghost at: nat) returns (n: Option<nat>)
      requires pc == at + 1
      modifies this`pc
      ensures match Operand(p.code, at, op)
              case Some(o) => n == Some(o.0) && pc == at + o.1
              case None => n == None
    {
      if op % 8 < 6 {
        n := Some(op % 8);
      } else if op % 8 == 6 {
        n := Fetch();
      } else {
        n := Fetch2();
      }
    }

    /** PUSH.  Past the end, the cell written is none of the stack's. */
    method Push(v: Value)
      requires 0 <= sp <= cells.Length
      modifies this`sp, cells
      ensures Now() == Pushed(old(Now()), v)
    {
      if sp < cells.Length {
        cells[sp] := v;
      }
      sp := sp + 1;
    }

    /** POP, unless it reads outside the stack. */
    method Pop() returns (v: Option<Value>)
      requires sp <= cells.Length
      modifies this`sp
      ensures if old(sp) < 1 then v == None && sp == old(sp) else sp == old(sp) - 1 && v == Some(cells[sp])
    {
      if sp < 1 {
        return None;
      }
      sp := sp - 1;
      v := Some(cells[sp]);
    }

    /** TOP = the result of a call. */
    method SetTop(a: Answer) returns (r: Status)
      requires sp <= cells.Length
      modifies cells
      ensures sp < 1 ==> r == Halt(Wild)
      ensures sp >= 1 ==>
                As(r, Now(), if a.Throws? then Stop(Thrown) else Go(old(Now()).(cells := old(cells[..])[sp - 1 := a.v])))
    {
      if sp < 1 {
        return Halt(Wild);
      }
      if a.Throws? {
        return Halt(Thrown);
      }
      cells[sp - 1] := a.v;
      r := Running;
    }

    /** `n` - 1 operands popped, and the last of `n` replaced. */
    method PopApply(n: nat, a: Answer) returns (r: Status)
      requires 0 <= sp <= cells.Length && n >= 1
      modifies this`sp, cells
      ensures As(r, Now(), Perform(p, count, Apply(n), old(Now()), a))
    {
      for i := 1 to n
        invariant sp == old(sp) - (i - 1) >= 0 && cells[..] == old(cells[..])
      {
        var v := Pop();
        if v == None {
          return Halt(Wild);
        }
      }
      r := SetTop(a);
    }

    /** `n` - 1 operands discarded at once; the call is given `n` from there on. */
    method DiscardApply(n: nat, a: Answer) returns (r: Status)
      requires 0 <= sp <= cells.Length && n >= 1
      modifies this`sp, cells
      ensures As(r, Now(), Perform(p, count, Apply(n), old(Now()), a))
    {
      sp := sp - (n - 1);
      r := SetTop(a);
    }

    /** unbind_to. */
    method UnbindTo(to: int) returns (r: Status)
      requires to <= |specpdl|
      modifies this`specpdl
      ensures if to < 0 then r == Halt(Wild) && specpdl == old(specpdl)
              else r == Running && specpdl == old(specpdl)[..to]
    {
      if to < 0 {
        return Halt(Wild);
      }
      specpdl := specpdl[..to];
      r := Running;
    }

    method VarOperation(op: nat, k: nat, a: Answer) returns (r: Status)
      requires 0 <= sp <= cells.Length && HasOperand(op) && op < 32
      modifies this`sp, this`specpdl, cells
      ensures As(r, Now(), Perform(p, count, WithOperand(op, k), old(Now()), a))
    {
      if k >= |p.constants| {
        return Halt(Wild);
      }
      if op < 16 {
        if a.Throws? {
          return Halt(Thrown);
        }
        Push(a.v);
        return Running;
      }
      var v := Pop();
      if v == None {
        return Halt(Wild);
      }
      if a.Throws? {
        return Halt(Thrown);
      }
      if op >= 24 {
        specpdl := specpdl + [Variable(k)];
      }
      r := Running;
    }

    method WithOperandDo(op: nat, n: nat, a: Answer) returns (r: Status)
      requires 0 <= sp <= cells.Length && HasOperand(op)
      modifies this`sp, this`specpdl, cells
      ensures As(r, Now(), Perform(p, count, WithOperand(op, n), old(Now()), a))
    {
      if op < 32 {
        r := VarOperation(op, n, a);
      } else if op < 40 {
        r := DiscardApply(n + 1, a);
      } else {
        if n <= |specpdl| && a.Throws? {
          return Halt(Thrown);
        }
        r := UnbindTo(|specpdl| - n);
      }
    }

    method WithTargetDo(op: nat, n: nat) returns (r: Status)
      requires 0 <= sp <= cells.Length && HasTarget(op)
      modifies this`sp, this`pc, cells
      ensures forall a :: As(r, Now(), Perform(p, count, WithTarget(op, n), old(Now()), a))
    {
      if op == CONSTANT2 {
        if n >= |p.constants| {
          return Halt(Wild);
        }
        Push(p.constants[n]);
        return Running;
      }
      r := Running;
      if op == GOTO {
        pc := n;
        return;
      }
      if sp < 1 {
        return Halt(Wild);
      }
      var top := cells[sp - 1];
      if op == GOTO_IF_NIL || op == GOTO_IF_NONNIL {
        sp := sp - 1;
        if (top == Nil) == (op == GOTO_IF_NIL) {
          pc := n;
        }
      } else if (top == Nil) == (op == GOTO_IF_NIL_ELSE_POP) {
        pc := n;
      } else {
        sp := sp - 1;
      }
    }

    method SpecpdlDo(op: nat, a: Answer) returns (r: Status)
      requires 0 <= sp <= cells.Length
      requires ForSpecpdl(op)
      modifies this`sp, this`specpdl, cells
      ensures As(r, Now(), Perform(p, count, Plain(op), old(Now()), a))
    {
      hide Plain;
      PlainSpecpdl(op);
      r := Running;
      if op == SAVE_EXCURSION || op == SAVE_RESTRICTION {
        if a.Throws? {
          return Halt(Thrown);
        }
        specpdl := specpdl + [if op == SAVE_EXCURSION then Excursion else Restriction];
      } else if op == UNWIND_PROTECT {
        var v := Pop();
        if v == None {
          return Halt(Wild);
        }
        if a.Throws? {
          return Halt(Thrown);
        }
        specpdl := specpdl + [Protected(v.value)];
      } else if op == TEMP_OUTPUT_BUFFER_SETUP {
        r := SetTop(a);
        if r == Running {
          specpdl := specpdl + [StandardOutput];
        }
      } else {
        var v := Pop();
        if v == None || sp < 1 || |specpdl| < 1 {
          return Halt(Wild);
        }
        if a.Throws? {
          return Halt(Thrown);
        }
        cells[sp - 1] := v.value;
        r := UnbindTo(|specpdl| - 1);
      }
    }

    /** The operations that only move operands. */
    method StackDo(op: nat) returns (r: Status)
      requires 0 <= sp <= cells.Length && RETURN <= op <= DUP
      modifies this`sp, cells
      ensures forall a :: As(r, Now(), Perform(p, count, Plain(op), old(Now()), a))
    {
      hide Plain;
      PlainStack(op);
      r := Running;
      if op == DISCARD {
        sp := sp - 1;
      } else if sp < 1 {
        return Halt(Wild);
      } else if op == DUP {
        Push(cells[sp - 1]);
      } else {
        var v := cells[sp - 1];
        sp := sp - 1;
        r := if |specpdl| != count then Halt(Abort) else Exit(v);
      }
    }

    method PlainDo(op: nat, a: Answer) returns (r: Status)
      requires 0 <= sp <= cells.Length
      modifies this`sp, this`specpdl, cells
      ensures As(r, Now(), Perform(p, count, Plain(op), old(Now()), a))
    {
      if Replacing(op) {
        r := SetTop(a);
      } else if Popping2(op) {
        r := PopApply(2, a);
      } else if Popping3(op) {
        r := PopApply(3, a);
      } else if Discarding2(op) {
        r := DiscardApply(2, a);
      } else if Discarding3(op) {
        r := DiscardApply(3, a);
      } else if Discarding4(op) {
        r := DiscardApply(4, a);
      } else if Pushing(op) {
        if a.Throws? {
          return Halt(Thrown);
        }
        Push(a.v);
        r := Running;
      } else if RETURN <= op <= DUP {
        r := StackDo(op);
      } else if ForSpecpdl(op) {
        r := SpecpdlDo(op, a);
      } else if op == SCAN_BUFFER && a.Throws? {
        r := Halt(Thrown);
      } else if CONSTANT <= op < CONSTANT + 64 {
        if op - CONSTANT >= |p.constants| {
          return Halt(Wild);
        }
        Push(p.constants[op - CONSTANT]);
        r := Running;
      } else {
        r := Running;
      }
    }

    /** One round of the loop. */
    method Round(a: Answer) returns (r: Status)
      modifies this`pc, this`sp, this`specpdl, cells
      ensures As(r, Now(), Step(p, count, old(Now()), a))
      ensures old(pc) < |p.code| ==> Obeyed(p, count, old(Now()), a, Outcome(r, Now()))
    {
      hide Plain, WithOperand, WithTarget, Perform, Operand, Byte2, Obeyed;
      if pc < |p.code| {
        StepObeys(p, count, Now(), a);
      }
      if sp > cells.Length {
        return Halt(Overflow);
      }
      if sp < 0 {
        return Halt(Underflow);
      }
      ghost var at := pc;
      var fetched := Fetch();
      if fetched == None {
        return Halt(Wild);
      }
      var op := fetched.value;
      if HasOperand(op) {
        var n := FetchOperand(op, at);
        if n == None {
          return Halt(Wild);
        }
        assert Now() == old(Now()).(pc := pc);
        assert Step(p, count, old(Now()), a) == Perform(p, count, WithOperand(op, n.value), Now(), a);
        r := WithOperandDo(op, n.value, a);
      } else if HasTarget(op) {
        if Polls(op) && a.Throws? {
          return Halt(Thrown);
        }
        var n := Fetch2();
        if n == None {
          return Halt(Wild);
        }
        assert Now() == old(Now()).(pc := pc);
        assert Step(p, count, old(Now()), a) == Perform(p, count, WithTarget(op, n.value), Now(), a);
        r := WithTargetDo(op, n.value);
      } else {
        assert Now() == old(Now()).(pc := pc);
        assert Step(p, count, old(Now()), a) == Perform(p, count, Plain(op), Now(), a);
        r := PlainDo(op, a);
      }
    }

    /** The loop, for as many rounds as there are answers. */
    method Run(answers: seq<Answer>) returns (r: Status)
      modifies this`pc, this`sp, this`specpdl, cells
      ensures As(r, Now(), Steps(p, count, old(Now()), answers))
    {
      r := Running;
      var i := 0;
      while i < |answers| && r == Running
        invariant 0 <= i <= |answers|
        invariant if r == Running then Steps(p, count, old(Now()), answers) == Steps(p, count, Now(), answers[i..])
                  else As(r, Now(), Steps(p, count, old(Now()), answers))
      {
        assert answers[i..][0] == answers[i] && answers[i..][1..] == answers[i + 1..];
        r := Round(answers[i]);
        i := i + 1;
      }
      if r == Running {
        assert answers[i..] == [];
      }
    }
  }

  /** The main result, for the interpreter: started afresh on a program with consistent depths, it reports no
      error, does not abort, keeps to its own memory, and returns with specpdl as it found it. */
  method ByteCode(p: Program, ghost depths: map<nat, Depths>, specpdl: seq<Binding>, answers: seq<Answer>)
      returns (r: Status, after: seq<Binding>)
    requires Consistent(p, depths)
    ensures r == Running || r.Exit? || (r == Halt(Thrown) && Throws in answers)
    ensures r.Exit? ==> after == specpdl
    ensures r == Running ==> specpdl <= after
  {
    var m := new Interpreter(p, specpdl);
    RunsFit(p, depths, specpdl, m.Now(), answers);
    r := m.Run(answers);
    after := m.specpdl;
  }

  // ---- a compiled form ----

  lemma ConstantObeys(p: Program, count: nat, s: State, a: Answer, n: Next)
    requires s.pc < |p.code| && Obeyed(p, count, s, a, n) && a.Gives? && 0 <= s.sp < |s.cells|
    requires 192 <= p.code[s.pc] < 256 && p.code[s.pc] - 192 < |p.constants|
    ensures n.Go? && n.s.pc == s.pc + 1 && n.s.sp == s.sp + 1 && |n.s.cells| == |s.cells| && n.s.specpdl == s.specpdl
    ensures n.s.cells[s.sp] == p.constants[p.code[s.pc] - 192]
  {
    hide OperandObeyed, JumpObeyed, CallObeyed, OperandIs;
    assert n.s.cells[s.sp] == n.s.cells[..n.s.sp][s.sp];
  }

  lemma IfNilObeys(p: Program, count: nat, s: State, a: Answer, n: Next)
    requires s.pc + 2 < |p.code| && Obeyed(p, count, s, a, n) && a.Gives? && 1 <= s.sp <= |s.cells| && p.code[s.pc] == 131
    ensures n.Go? && n.s.sp == s.sp - 1 && |n.s.cells| == |s.cells| && n.s.specpdl == s.specpdl
    ensures n.s.pc == if s.cells[s.sp - 1] == Nil then p.code[s.pc + 1] + 256 * p.code[s.pc + 2] else s.pc + 3
  {
    hide OperandObeyed, MoveObeyed, CallObeyed, OperandIs;
  }

  lemma ReturnObeys(p: Program, count: nat, s: State, a: Answer, n: Next)
    requires s.pc < |p.code| && Obeyed(p, count, s, a, n) && a.Gives? && 1 <= s.sp <= |s.cells| && p.code[s.pc] == 135
    requires |s.specpdl| == count
    ensures n == Returned(s.cells[s.sp - 1], s.specpdl)
  {
    hide OperandObeyed, JumpObeyed, MoveObeyed, CallObeyed, OperandIs;
  }

  /** An `if` as the byte compiler does it: a test, goto-if-nil to the third constant, the second constant and a return,
      and the third and a return. */
  function CompiledIf(test: Value, yes: Value, no: Value): Program {
    Program([192, 131, 6, 0, 193, 135, 194, 135], [test, yes, no], 1)
  }

  /** Run to its return, it gives the one or the other by whether the test is nil. */
  method RunIf(test: Value, yes: Value, no: Value, specpdl: seq<Binding>) returns (r: Status)
    ensures r == Exit(if test != Nil then yes else no)
  {
    hide Steps, Step, Obeyed;
    var a := Gives(Nil);
    var p := CompiledIf(test, yes, no);
    var m := new Interpreter(p, specpdl);
    ghost var s0 := m.Now();
    r := m.Round(a);
    ConstantObeys(p, m.count, s0, a, Outcome(r, m.Now()));
    ghost var s1 := m.Now();
    r := m.Round(a);
    IfNilObeys(p, m.count, s1, a, Outcome(r, m.Now()));
    ghost var s2 := m.Now();
    r := m.Round(a);
    ConstantObeys(p, m.count, s2, a, Outcome(r, m.Now()));
    ghost var s3 := m.Now();
    r := m.Round(a);
    ReturnObeys(p, m.count, s3, a, Outcome(r, m.Now()));
  }
}
