# Verified models of the Emacs C core

The C tree under `emacs-archaeology` is the GNU Emacs of 1991. These modules model the parts of it in
which the state is hardest to keep straight, in the form the C code has (fields that methods update,
loops over blocks, lists and arrays), and prove what the code relies on.

| file | models |
|---|---|
| `Common.dfy` | what several models use |
| `StringSpace.dfy` | small strings, the chains of references threaded through them, and the compactor (`src/alloc.c`) |
| `Marking.dfy` | `mark_object` and a whole collection: mark, then compact (`src/alloc.c`) |
| `ConsSpace.dfy` | cons cells, their free list and their sweep (`src/alloc.c`) |
| `Collection.dfy` | marking and sweeping together, for conses (`src/alloc.c`) |
| `UpdateLine.dfy` | the edit script that turns one terminal row into another (`src/dispnew.c`) |
| `ScrollLines.dfy` | scrolling, and the record of the screen that moves with it (`src/dispnew.c`) |
| `LocalValues.dfy` | the plain meaning of a buffer-local variable: a default and a map |
| `BufferLocals.dfy` | the one-entry cache and the alists that stand for it (`src/data.c`, `src/buffer.c`) |
| `SlotLocals.dfy` | the slots and flag bits that stand for it (`src/data.c`, `src/buffer.c`) |
| `Unwind.dfy` | what Lisp forms with dynamic binding and non-local exits mean, and the theory of unwinding |
| `FormLaws.dfy` | the laws of the forms, one by one, of that meaning |
| `Evaluator.dfy` | the evaluator on `specpdl`, `catchlist` and `handlerlist` (`src/eval.c`) |
| `CursorMotion.dfy` | the cheapest cursor motion (`src/cm.c`) |
| `CaseTable.dfy` | case tables and their equivalence cycles (`src/casetab.c`) |
| `Completion.dfy` | file name completion (`src/dired.c`) |
| `Hexl.dfy` | the hexl encoder and decoder (`lib-src/hexl.c`) |
| `Bytecode.dfy` | the byte-code interpreter as a stack machine (`src/bytecode.c`) |
| `Etags.dfy` | tag tables: the tree of tags and what is written (`lib-src/etags.c`) |
| `Timer.dfy` | the timer process (`lib-src/timer.c`) |

The main results:

* **A collection keeps exactly what is reachable, and every string.** `Marking.Collector.Collect`: the
  objects marked are those reachable from the roots, whatever shortcuts `mark_object` took; each reference
  to a small string that was gone through refers afterwards to a string with the same text, shared with the
  same references as before and in the same order of addresses; every other slot is untouched; and no
  string survives that nothing refers to. Behind it is `StringSpace.Strings.CompactStrings`, which slides
  strings down under its own feet while resolving chains of references, and never overtakes itself.
  `Collection.GarbageCollect` joins this to the sweep: a cons cell is in use afterwards exactly if its cons is
  reachable, and every other cell handed out is on the free list.
* **Any edit script is a right one.** `UpdateLine.UpdateLine`: whatever the costs of inserting and deleting
  are, the terminal row ends as the new row padded with blanks, and the record of the screen says so,
  but for one branch of which the model shows exactly when it fails.
* **A cache of aliased cons cells is a map, and so are slots with flag bits.** `BufferLocals.World.Run` and
  `SlotLocals.World.Run`: over every sequence of operations every answer is the one that a default and a map
  from buffers to values give.
* **setjmp, longjmp and three stacks are a compositional meaning.** `Evaluator.Machine.TopLevel`: for every
  form, with loops, calls and any timing of quits, running it on the stacks gives the value, the variables
  and the cleanup forms run that `Unwind.Ref` gives, which knows no stacks at all, and leaves every stack
  empty. `FormLaws` says of that meaning, form by form, what Lisp promises of it.
* **A dry run can be believed.** `CursorMotion.Cursor.Goto`: the cursor gets there, no motion leaves the
  screen, how much is sent is known exactly, and it is no more than the absolute motion considered takes.
* **One depth for each place is enough.** `Bytecode.RunsFit` and `Bytecode.ByteCode`: if each place of a program
  has one operand depth and one binding depth that its instructions agree with, no run of any length meets an
  error, aborts, or leaves its stack.
* **Tags are sorted and counted.** `Etags.Ctags`: the first tag of each name, in order; `Etags.EtagsFile`: every
  tag, in the order found, behind the right number of characters.

Findings. Some claims one might make of the code do not hold as they stand, and the model says when they do:

* `update_line` leaves the record of a row wrong when the new row is not enabled: it takes over the number
  of columns of the old contents of the new row (`src/dispnew.c:931-950`, `1172-1175`). Both callers ask for rows
  that are enabled only (`src/dispnew.c:710`, `717`), so this does not come up. `UpdateLine.UpdateLine` gives the
  condition under which the record is right all the same, and `UpdateLine.StaleGlyph` a call after which it is not.
* `compute_trt_inverse` divides the characters into circular lists, one for each class, for idempotent tables
  and for no others (`CaseTable.ExactlyIdempotent`), though its comment makes no such condition.
* The cost that `calccost` returns counts what is left to go after tabs twice; `CursorMotion.EstimateExact` says
  when it is exact all the same.
* On the row the cursor is on, `cmgoto` weighs the horizontal motion only, and in the column the vertical one. If
  it takes that one, it sends more than the general absolute motion takes exactly if that one is longer
  (`CursorMotion.AgainstGeneral`); `CursorMotion.LongerThanGeneral` is a call where it does. Otherwise, where the
  general motion is the one considered, it never does.
* The check for an overflow of the operand stack comes after the cell past its end has been written
  (`Bytecode.OverflowByPush`), and the one for an underflow after operands that are not there have been read, but
  for a discard (`Bytecode.UnderflowByDiscard`).
* `total_size_of_entries` does not count minus signs, so it is right exactly if no line or character number is
  negative (`Etags.SizeCounts`).

## Model

| member | source | states |
|---|---|---|
| StringSpace.Strings.constructor | emacs-archaeology/src/alloc.c:511-521 | starts with one block, which is empty and current, and no strings |
| StringSpace.Strings.Thread | emacs-archaeology/src/alloc.c:1019-1047 | puts one slot at the front of the chain of the string it refers to, keeps its mark bit, changes no other slot, and the string space stays valid with the chain one longer |
| StringSpace.ThreadKeeps | emacs-archaeology/src/alloc.c:1026-1045 | threading a slot keeps every stored string's text and every other chain |
| StringSpace.Strings.ChainSize | emacs-archaeology/src/alloc.c:1393-1407 | following the chain from a string's size field ends at the size the string had |
| StringSpace.Strings.Unthread | emacs-archaeology/src/alloc.c:1429-1453 | every slot of the chain refers to the new address afterwards, with its mark bit as it was, no other slot changes, and the size comes out at the end of the chain |
| StringSpace.Strings.Fit | emacs-archaeology/src/alloc.c:1408-1420 | finds room for the string: the block written to never passes the block read from, blocks passed over are closed at their fill, and what was written is laid out in order |
| StringSpace.Strings.Relocate | emacs-archaeology/src/alloc.c:1421-1428 | sliding a string down over memory it may overlap leaves its text at the new address and everything outside the two places alone |
| StringSpace.Strings.CompactOne | emacs-archaeology/src/alloc.c:1385-1466 | one string of a block: skipped if nothing refers to it, else moved and unthreaded, with everything done so far and everything still to come kept |
| StringSpace.Strings.CompactBlocks | emacs-archaeology/src/alloc.c:1367-1467 | one pass over all blocks: the strings moved are exactly those referred to, in order, below where they were, with their texts, and their sizes add up to the total |
| StringSpace.Strings.DropEmptyBlocks | emacs-archaeology/src/alloc.c:1476-1486 | dropping the blocks left empty keeps the first block, the current block and every string |
| StringSpace.Strings.CompactStrings | emacs-archaeology/src/alloc.c:1367-1486 | after compaction the strings are exactly those referred to before, in order and without overlap, each slot of a chain refers to its string's new address, the current block is the last of the chain, and only the first block may be empty |
| StringSpace.CompactionKeepsStrings | emacs-archaeology/src/alloc.c:1367-1486 | each string referred to has a new address at or below its old one where the same text is read; the slots of one chain follow it together with their mark bits; the order of the strings is kept; slots on no chain are unchanged |
| StringSpace.OnlyLiveSurvive | emacs-archaeology/src/alloc.c:1385-1466 | every string that survives was referred to |
| StringSpace.MoveLiveStep | emacs-archaeology/src/alloc.c:1421-1460 | moving one string down does not disturb the strings moved before, those still to come, nor the slots of either |
| StringSpace.ScanWithoutEmpty | emacs-archaeology/src/alloc.c:1476-1486 | the scan of the blocks finds the same strings without an empty block |
| StringSpace.Strings.MakeString | emacs-archaeology/src/alloc.c:547-616 | a new small string is stored after the others, in the current block or a new one, and every other string and slot stays; it is large exactly if it does not fit the current block and exceeds the limit for blocks |
| Marking.Collector.MarkLeaf | emacs-archaeology/src/alloc.c:1019-1047 | a slot that refers to a small string is threaded on it, and a slot that refers to no object is left alone; either way it counts as gone through, and nothing else changes |
| Marking.Collector.MarkSlots | emacs-archaeology/src/alloc.c:1049-1063 | a vector's slots, or the name and value slots of an object, are each gone through once |
| Marking.Collector.MarkCons | emacs-archaeology/src/alloc.c:1107-1139 | marking a cons, with both shortcuts for its cdr, leaves what it refers to marked or still to be gone through, except nil at the end of a list |
| Marking.Collector.MarkSymbol | emacs-archaeology/src/alloc.c:1078-1098 | goes through the name, value, function and property list of a symbol, and goes on with the next symbol of its obarray bucket |
| Marking.Collector.MarkBuffer | emacs-archaeology/src/alloc.c:1165-1183 | goes through the name, sets the mark bit in it, and goes through the other fields; a killed buffer, whose name is nil, is not met again meanwhile |
| Marking.Collector.MarkName | emacs-archaeology/src/alloc.c:1175-1177 | before a buffer is marked its name is gone through; if that is nil, nil ends up marked with all it leads to, and the buffer still is not |
| Marking.Collector.MarkOnly | emacs-archaeology/src/alloc.c:1019-1060 | an object without slots to go through, a marker or a large string, is marked, once or again, and nothing else |
| Marking.Collector.MarkObject | emacs-archaeology/src/alloc.c:998-1163 | terminates, because the set of unmarked objects shrinks; marks only reachable objects; and everything marked meanwhile has its references gone through, each slot at most once |
| Marking.GrownTwice | emacs-archaeology/src/alloc.c:998-1163 | two markings one after the other leave no more pending than the one did |
| Marking.Collector.MarkRoots | emacs-archaeology/src/alloc.c:829-904 | every root is gone through, and the roots on the C stack are marked so as to be gone through only once |
| Marking.MarkedIsReachable | emacs-archaeology/src/alloc.c:998-1163 | the objects marked are exactly the reachable ones, although the end of a list is not looked at, given that nil is held some other way |
| Marking.AllFollowed | emacs-archaeology/src/alloc.c:1017-1161 | whatever the car, cdr, name, value, function, property list, next symbol, element or buffer field of a marked object refers to was followed: an object is marked, a string is threaded; the chain of a marker is not |
| Marking.SlotIsField | emacs-archaeology/src/alloc.c:1049-1139 | a slot that was gone through is a field of a marked object, read off the object itself, or a root |
| Marking.TracedFollow | emacs-archaeology/src/alloc.c:998-1047 | the string references gone through are, after compaction, references to the same texts, shared as before and in the same order |
| Marking.OthersStay | emacs-archaeology/src/alloc.c:1367-1486 | every slot not threaded is as it was, and every mark bit too |
| Marking.SurvivorsReferredTo | emacs-archaeology/src/alloc.c:1367-1486 | each string left is referred to by a slot that was gone through |
| Marking.Collector.Collect | emacs-archaeology/src/alloc.c:829-904 | the whole collection up to the string space: marked objects are exactly the reachable ones, whatever any field of a marked object refers to is marked or followed, the slots gone through are the roots and the slots of marked objects, string references follow with text, sharing and order, other slots are unchanged, and no unreferenced string is left |
| ConsSpace.Conses.constructor | emacs-archaeology/src/alloc.c:184-192 | starts with no cell in use and an empty free list |
| ConsSpace.Conses.FreeCons | emacs-archaeology/src/alloc.c:194-200 | the cell becomes the first of the free list, linked to the one that was, and is no longer in use; cells in use stay as they were |
| ConsSpace.Conses.Cons | emacs-archaeology/src/alloc.c:202-232 | returns a cell that was not in use, with this car and cdr; cells in use stay as they were; a new cell is handed out only if the free list is empty |
| ConsSpace.Conses.Sweep | emacs-archaeology/src/alloc.c:1193-1220 | afterwards the cells in use are exactly those that were marked, otherwise unchanged and with their marks clear; the free list is all other cells handed out; the two totals are right and add up |
| ConsSpace.Account | emacs-archaeology/src/alloc.c:1193-1220 | at any time cells in use and cells on the free list are disjoint and account for every cell handed out |
| UpdateLine.UpdateLine | emacs-archaeology/src/dispnew.c:877-1176 | for any two lines and any costs the terminal row ends as the new text padded with blanks, the line buffers are exchanged and the record describes the row; if the new line is not enabled the row is cleared and the record describes it exactly if the new line's stale text is blank |
| UpdateLine.StaleGlyph | emacs-archaeology/src/dispnew.c:931-950 | update_line on a new line that is not enabled but holds a glyph leaves the row cleared and a record that does not describe it |
| UpdateLine.OverwriteRuns | emacs-archaeology/src/dispnew.c:975-1000 | without insert and delete, writing the runs that differ gives the new text |
| UpdateLine.MatchStart | emacs-archaeology/src/dispnew.c:1030-1053 | the leading blanks and the match after them are where the two lines agree, with blanks past the end of the old line counted in |
| UpdateLine.CountEndMatch | emacs-archaeology/src/dispnew.c:1055-1064 | the match at the end does not overlap the one at the start and is where the two lines agree |
| UpdateLine.Weigh | emacs-archaeology/src/dispnew.c:1074-1092 | whatever the costs decide, what is left is still a plan that the two lines bear out |
| UpdateLine.FindPlan | emacs-archaeology/src/dispnew.c:1026-1092 | the sentinels written into the lines are taken out again, and the plan found is borne out by the lines |
| UpdateLine.AlignBlanks | emacs-archaeology/src/dispnew.c:1094-1115 | deleting or inserting at the start, and making room first if need be, brings the matching text where the new line has it without losing the match at the end |
| UpdateLine.MakeRoom | emacs-archaeology/src/dispnew.c:1103-1114 | deleting before the match at the end makes room, so that inserting pushes nothing of it off the row |
| UpdateLine.WriteMiddle | emacs-archaeology/src/dispnew.c:1117-1162 | writing, inserting or deleting between the two matches gives the new text, up to an old tail still to be erased |
| UpdateLine.WriteText | emacs-archaeology/src/dispnew.c:975-1162 | all paths together turn the old row into the new text, up to an old tail still to be erased |
| UpdateLine.JustErase | emacs-archaeology/src/dispnew.c:1164-1170 | erasing the tail leaves the new text padded with blanks |
| UpdateLine.CountBlanks | emacs-archaeology/src/dispnew.c:1178-1184 | stops at the first glyph that is not a blank |
| UpdateLine.CountMatch | emacs-archaeology/src/dispnew.c:1186-1193 | counts glyphs that agree and stops where two differ |
| ScrollLines.SafeBcopy | emacs-archaeology/src/dispnew.c:488-516 | copies the elements as they were, whichever way the two ranges overlap, and nothing else changes |
| ScrollLines.RotateVector | emacs-archaeology/src/dispnew.c:471-486 | rotates the elements by the distance, which may be negative, and nothing else changes |
| ScrollLines.MovedDown | emacs-archaeology/src/dispnew.c:406-412 | the terminal operations for scrolling down, with or without a scroll region, move exactly the lines of the window |
| ScrollLines.MovedUp | emacs-archaeology/src/dispnew.c:433-439 | and those for scrolling up |
| ScrollLines.Terminal.ScrollDown | emacs-archaeology/src/dispnew.c:406-412 | each row holds the line it should, blank where vacated, unchanged outside the window |
| ScrollLines.Terminal.ScrollUp | emacs-archaeology/src/dispnew.c:433-439 | each row holds the line it should, blank where vacated, unchanged outside the window |
| ScrollLines.SourceOneToOne | emacs-archaeology/src/dispnew.c:414-416 | the rows' line buffers are permuted: none is lost or shared |
| ScrollLines.Redescribed | emacs-archaeology/src/dispnew.c:393-469 | if the record described the terminal before both scrolled, it does afterwards |
| ScrollLines.Screen.ScrollScreenLines | emacs-archaeology/src/dispnew.c:393-469 | the record still describes the terminal; contents, used, highlight and enable move together; vacated rows are enabled, empty and normal; other rows are untouched; nothing happens if the terminal cannot do it |
| BufferLocals.Symbol.WriteBack | emacs-archaeology/src/data.c:567-567 | the cached value goes back to the element it came from, and the variable is the same |
| BufferLocals.Symbol.Encache | emacs-archaeology/src/data.c:568-573 | bringing in a buffer's element makes the cached value that buffer's value, and the variable is the same |
| BufferLocals.Symbol.StoreInto | emacs-archaeology/src/data.c:702-723 | storing through a cache just pointed at the buffer's element, or at the default, is setting the variable there |
| BufferLocals.Symbol.StoreMade | emacs-archaeology/src/data.c:689-723 | the same through an element just made for the buffer |
| BufferLocals.World.SymbolValue | emacs-archaeology/src/data.c:551-580 | returns the current buffer's value of the variable, or signals that it is void, and changes no variable |
| BufferLocals.World.DefaultValue | emacs-archaeology/src/data.c:608-631 | returns the default |
| BufferLocals.World.Set | emacs-archaeology/src/data.c:633-724 | sets the variable as the current buffer sees it, making it local if setting does that, and changes no other variable; setting a constant is an error and changes nothing |
| BufferLocals.World.SetDefault | emacs-archaeology/src/data.c:726-783 | sets the default, also in the cache if the default is cached, and nothing else |
| BufferLocals.World.MakeAll | emacs-archaeology/src/data.c:801-836 | make-variable-buffer-local: the variable is local wherever it is set from now on; if it had a value, the default and what every buffer sees stay, and if not, every buffer sees nil |
| BufferLocals.World.MakeLocal | emacs-archaeology/src/data.c:838-887 | make-local-variable: the current buffer has a value of its own from now on, unless the variable is local wherever it is set; if the variable had a value, what every buffer sees and the default stay, and if not, every buffer sees nil |
| BufferLocals.World.KillLocal | emacs-archaeology/src/data.c:889-936 | the current buffer sees the default again and no other buffer is affected |
| BufferLocals.World.KillAllLocals | emacs-archaeology/src/buffer.c:1012-1041 | the current buffer sees the default of every variable, cached or not, and no other buffer is affected |
| BufferLocals.World.NewBuffer | emacs-archaeology/src/buffer.c:150-226 | a new buffer sees every default |
| BufferLocals.World.SetBuffer | emacs-archaeology/src/buffer.c:720-740 | changing the current buffer changes no variable |
| BufferLocals.World.ElementAdded | emacs-archaeology/src/data.c:868-871 | with a new element for one symbol in one alist, every alist still holds exactly the elements the symbols have |
| BufferLocals.World.Do | emacs-archaeology/src/data.c:551-936 | any one operation does to every variable what the specification says and returns what it says |
| BufferLocals.World.Run | emacs-archaeology/src/data.c:551-936 | over any sequence of operations every answer and every variable at the end is what a default and a map from buffers to values give |
| BufferLocals.SeenFrom | emacs-archaeology/src/data.c:633-936 | what each operation changes in what any buffer sees: a value set is seen here, and elsewhere only without a local value; becoming local changes no value there is; killing goes back to the default |
| BufferLocals.LocalIsPrivate | emacs-archaeology/src/data.c:840-844 | whatever is done while other buffers are current, a buffer's own value stays |
| BufferLocals.AutoLocalRemembers | emacs-archaeology/src/data.c:801-810 | a variable local wherever it is set keeps what a buffer set it to, whatever goes on in other buffers, and no other buffer's value changed |
| BufferLocals.Independent | emacs-archaeology/src/data.c:551-936 | what a session makes of a variable depends only on the operations on it, the changes of buffer and kill-all-local-variables |
| SlotLocals.World.Set | emacs-archaeology/src/data.c:650-656 | sets the flag and the slot: the variable is set as LocalValues says, and no other slot's variable changes |
| SlotLocals.World.SetDefault | emacs-archaeology/src/data.c:741-767 | sets the default and every slot that shows it; each local value stays |
| SlotLocals.World.KillLocal | emacs-archaeology/src/data.c:902-914 | the slot shows the default again and its flag is clear; a slot that is local everywhere stays |
| SlotLocals.World.ResetLocals | emacs-archaeology/src/buffer.c:249-277 | each slot with a mask holds the default and no flag is set; the slots of the major mode are those of Fundamental |
| SlotLocals.World.KillAllLocals | emacs-archaeology/src/buffer.c:1012-1041 | every variable with a mask loses its local value in the current buffer |
| SlotLocals.World.NewBuffer | emacs-archaeology/src/buffer.c:150-205 | a new buffer sees every default and changes no variable with a mask |
| SlotLocals.MasksDisjoint | emacs-archaeology/src/buffer.c:1096-1109 | every mask given to a per-buffer variable has one bit only, and no two have the same, so the kinds of the slots meet what the other operations rely on |
| SlotLocals.InitBufferOnce | emacs-archaeology/src/buffer.c:1084-1109 | the slots start as buffer_local_flags says, with those masks |
| SlotLocals.World.Do | emacs-archaeology/src/data.c:741-767 | one operation has the specified effect on every slot and the specified answer |
| SlotLocals.World.Run | emacs-archaeology/src/data.c:650-656 | over every sequence of set-buffer, set, set-default, default-value, kill-local-variable and kill-all-local-variables every answer is the one that a default and a map from buffers to values give |
| SlotLocals.SeenFrom | emacs-archaeology/src/data.c:650-656 | what each operation on slots changes in what any buffer sees: a value set is the buffer's own, a default shows where there is none, killing goes back to it in masked slots only |
| SlotLocals.OtherBuffersDoNot | emacs-archaeology/src/data.c:741-767 | until a buffer is made current again, no operation changes the value it has of its own in a slot, and without one it sees the default |
| Unwind.Undisturbed | emacs-archaeology/src/eval.c:1930-1986 | a form that sets a variable only inside bindings of it leaves it as it was, however it ends and whatever its cleanup forms do, calls included |
| Unwind.CleanupOnce | emacs-archaeology/src/eval.c:885-904 | however the body ends, the cleanup form is put into the trace once, after all that the body put there and before all that the cleanup form does, and what it leaves is what unwind-protect leaves |
| Unwind.SettleBindings | emacs-archaeology/src/eval.c:1963-1985 | undoing the records of any list of bindings, last first, gives every variable bound its old value, also if one is bound twice, and changes nothing else, on a return and on a jump alike |
| Unwind.SettleBinding | emacs-archaeology/src/eval.c:1963-1985 | a binding on the stack is undone on the way out, whether that is a return or any jump past it |
| Unwind.SettleCleanup | emacs-archaeology/src/eval.c:1963-1985 | a cleanup form on the stack is run once on the way out, and a jump out of it replaces the one under way |
| Unwind.SettleCatch | emacs-archaeology/src/eval.c:826-853 | a jump to the innermost catch lands with its saved state; any other goes on as if the catch were not there |
| Unwind.LandStep | emacs-archaeology/src/eval.c:836-853 | unbinding catch by catch is one unbinding to the catch jumped to, with each catch in force while what is inside it is undone |
| Unwind.LastHandler | emacs-archaeology/src/eval.c:1047-1068 | searching the handler list finds the innermost condition-case with a clause that applies |
| Evaluator.Machine.UnbindTo | emacs-archaeology/src/eval.c:1965-1986 | undoes the bindings and runs the cleanup forms above the count, last first, and arrives where the theory of unwinding says, also if a cleanup form exits |
| Evaluator.Machine.UnbindCatch | emacs-archaeology/src/eval.c:826-853 | lands at the catch, or where a cleanup form on the way exits to, with specpdl, catchlist, handlerlist, backtrace and depth as saved there |
| Evaluator.Machine.ThrowValue | emacs-archaeology/src/eval.c:855-882 | goes to the innermost catch for the tag; without one, or for nil, signals no-catch |
| Evaluator.Machine.FindClause | emacs-archaeology/src/eval.c:1048-1068 | finds the innermost handler with a clause for one of the conditions, and the first such clause |
| Evaluator.Machine.SignalValue | emacs-archaeology/src/eval.c:1017-1074 | goes to the condition-case that handles the signal, or to top level if none does |
| Evaluator.Machine.Specbind | emacs-archaeology/src/eval.c:1930-1950 | records the old value, or that there was none, and sets the new one |
| Evaluator.Machine.EvalUnder | emacs-archaeology/src/eval.c:795-824 | a body with a catch or condition-case around it: lands here exactly if its meaning is an exit to here, with the state that was saved |
| Evaluator.Machine.EvalCatch | emacs-archaeology/src/eval.c:772-824 | catch comes to what it means |
| Evaluator.Machine.EvalConditionCase | emacs-archaeology/src/eval.c:914-974 | condition-case comes to what it means: the handler runs outside its own protection, with its variable bound, which is unbound again after |
| Evaluator.Machine.EvalUnwindProtect | emacs-archaeology/src/eval.c:885-904 | unwind-protect comes to what it means |
| Evaluator.Machine.EvalLet | emacs-archaeology/src/eval.c:617-669 | let comes to what it means: all values are computed before any variable is bound |
| Evaluator.Machine.EvalLetX | emacs-archaeology/src/eval.c:582-613 | let* comes to what it means: each variable is bound before the next value is computed, and an exit half way undoes what was bound |
| Evaluator.Machine.BindParams | emacs-archaeology/src/eval.c:1873-1901 | binds the parameters as a lambda list with &optional and &rest says, and finds a wrong number of arguments |
| Evaluator.Machine.ApplyLambda | emacs-archaeology/src/eval.c:1855-1906 | a call binds, evaluates and unbinds; with a wrong number of arguments what was bound is undone by the signal |
| Evaluator.Machine.EvalWhile | emacs-archaeology/src/eval.c:671-691 | while comes to what it means, under any timing of quits |
| Evaluator.Machine.Eval | emacs-archaeology/src/eval.c:1272-1466 | every form comes to what it means: with a value, every stack, the depth and the backtrace are as before; with an exit, they are as saved at the catch landed at |
| Evaluator.Machine.TopLevel | emacs-archaeology/src/eval.c:805-824 | a form run inside the catch for top level gives the value, variables and cleanup forms run that it means, obeys the law of its kind of form, and leaves every stack empty |
| FormLaws.IfChooses | emacs-archaeology/src/eval.c:226-243 | if: a test that is not nil leads to what the one branch does after it, nil to what the other does, for all parts, states and contexts |
| FormLaws.WhileUnrolls | emacs-archaeology/src/eval.c:671-691 | while is one unrolling: nil ends it as `if` would; else, unless the user quits, it is the body and then the loop |
| FormLaws.ExitPassesOn | emacs-archaeology/src/eval.c:383-411 | an exit in the part of a form evaluated first is the form's: nothing else of it is evaluated |
| FormLaws.ArgsInOrder | emacs-archaeology/src/eval.c:1346-1400 | arguments are evaluated from first to last, each in the state the one before has left, up to an exit |
| FormLaws.BoundValue | emacs-archaeology/src/eval.c:1930-1950 | of several bindings of a variable the last counts, and other variables keep their values |
| FormLaws.WithinBindings | emacs-archaeology/src/eval.c:1963-1985 | after a body with bindings each variable bound has its old value, and what the body did to others stays |
| FormLaws.LetAndLetX | emacs-archaeology/src/eval.c:582-669 | in let the second value does not see the first binding, and in let* it does |
| FormLaws.LetXNested | emacs-archaeology/src/eval.c:582-613 | let* is a let of the first variable with let* of the others inside it |
| FormLaws.MatchIs | emacs-archaeology/src/eval.c:1873-1901 | a lambda list of required, optional and rest parameters takes exactly the numbers of arguments it should; parameters get the arguments in order, &optional without one is nil, &rest is the list of what is left |
| FormLaws.ListIs | emacs-archaeology/src/eval.c:1883-1887 | a list has its elements as the cars along it, and ends in nil |
| FormLaws.CallIsLet | emacs-archaeology/src/eval.c:1855-1906 | a call is the body inside a let of the parameters, or the error for a wrong number of arguments |
| FormLaws.CallNotMade | emacs-archaeology/src/eval.c:1291-1345 | when the user quits, or there is no such function, no argument is evaluated |
| FormLaws.ProtectRuns | emacs-archaeology/src/eval.c:885-904 | the cleanup form runs after the body, noted once; the outcome is the body's unless the cleanup form exits |
| FormLaws.ThrowReaches | emacs-archaeology/src/eval.c:855-882 | a throw goes with its value to the innermost catch for its tag, whatever catches and condition-cases stand between |
| FormLaws.ThrowNowhere | emacs-archaeology/src/eval.c:855-882 | a throw to nil, or to a tag without a catch, signals no-catch with the tag and the value |
| FormLaws.CatchGives | emacs-archaeology/src/eval.c:772-824 | a catch gives the value of its body or what is thrown to it, in the state the body left; other exits pass |
| FormLaws.FirstIs | emacs-archaeology/src/eval.c:1047-1068 | the clause found is the first with one of the conditions |
| FormLaws.SignalReaches | emacs-archaeology/src/eval.c:1017-1074 | a signal goes to the first clause that fits of the innermost condition-case that has one, with (SIGNAL . DATA) |
| FormLaws.SignalPasses | emacs-archaeology/src/eval.c:1047-1068 | a condition-case without a clause that fits leaves it to those further out |
| FormLaws.SignalUnhandled | emacs-archaeology/src/eval.c:1066-1074 | a signal that nobody handles ends at top level |
| FormLaws.ConditionCaseRuns | emacs-archaeology/src/eval.c:914-974 | an exit to a condition-case runs the clause found outside its protection, inside a let of the variable; other outcomes of the body are its own |
| FormLaws.ConditionCaseSignal | emacs-archaeology/src/eval.c:914-974 | a signal right under a condition-case runs the first clause that fits with (SIGNAL . DATA) in the variable |
| FormLaws.AllLawful | emacs-archaeology/src/eval.c:1272-1466 | every form at top level obeys the law of its kind, in terms of what its parts do |
| CursorMotion.TabStops | emacs-archaeology/src/cm.c:203-206 | the tabs counted do not go past the column wanted, and one more does |
| CursorMotion.TabsFit | emacs-archaeology/src/cm.c:194-244 | the tabs chosen stay on the screen, there is a way on from them, and their cost is counted together with the way on |
| CursorMotion.EstimateExact | emacs-archaeology/src/cm.c:236-262 | what is left after tabs is counted twice: what is sent is at most the estimate, and equal to it exactly if no tabs are used, or nothing is left after them, or a step of what is left costs nothing |
| CursorMotion.Cursor.ChooseTabs | emacs-archaeology/src/cm.c:194-245 | the loopless part of the tab arithmetic gives the tabbing chosen |
| CursorMotion.Cursor.RepeatTab | emacs-archaeology/src/cm.c:238-242 | n tabs end at the n-th stop, each before the right edge, at n times the cost |
| CursorMotion.Cursor.MoveAcross | emacs-archaeology/src/cm.c:183-266 | a dry run changes nothing; a real run ends in the column wanted having sent exactly the characters of the tabs and steps chosen |
| CursorMotion.Cursor.CalcCost | emacs-archaeology/src/cm.c:145-267 | a dry run changes nothing and returns an estimate that is below BIG only if there is a way; a real run from there gets to the place wanted, and what it sends is known exactly and no more than the estimate; without a way it is caught |
| CursorMotion.Cursor.Choose | emacs-archaeology/src/cm.c:296-320 | the estimate chosen is the least of the four, and below BIG only if that way exists |
| CursorMotion.Cursor.Goto | emacs-archaeology/src/cm.c:279-374 | the cursor gets to the row and column and the record of it agrees; calccost is never sent where it cannot go; exactly so much is sent as the motion considered takes if it is taken, or else the way estimated least; no more is sent than the absolute motion considered takes, nor than any of the estimates |
| CursorMotion.AgainstGeneral | emacs-archaeology/src/cm.c:321-350 | no more is sent than the general absolute motion takes if that is the motion considered; if a horizontal or vertical one is taken instead, exactly if it is not longer; and if it is not taken, less is sent than it takes |
| CursorMotion.LongerThanGeneral | emacs-archaeology/src/cm.c:322-323 | a call of cmgoto that sends 6 characters where the general absolute motion takes 4 |
| CaseTable.ComputeTrtInverse | emacs-archaeology/src/casetab.c:182-202 | fills the table in place with the chain each character has been put into |
| CaseTable.InverseIs | emacs-archaeology/src/casetab.c:191-201 | for an idempotent table, each class is chained in ascending order from the character all of it is translated to, at every stage of the loop |
| CaseTable.IdempotentSuffices | emacs-archaeology/src/casetab.c:175-181 | for an idempotent table the result is a permutation whose cycles are exactly the classes of equal translation |
| CaseTable.ChainedAstray | emacs-archaeology/src/casetab.c:191-201 | for any other table some character is chained to one of another class |
| CaseTable.ExactlyIdempotent | emacs-archaeology/src/casetab.c:175-202 | the circular lists are the equivalence classes exactly if the table is idempotent |
| CaseTable.CaseTables.SetCaseTable | emacs-archaeology/src/casetab.c:122-173 | installs the four tables, each one given or deduced as it should be, in the place asked for and no other; anything that is not a case table is refused |
| CaseTable.CompletedCompletes | emacs-archaeology/src/casetab.c:130-156 | a table given is installed as it is; CANON left out is down, up and down again, does not tell apart what DOWN does not, and is DOWN exactly if going up is undone by going down; UP and EQV left out are the circular lists of classes exactly for idempotent tables |
| CaseTable.Deduced | emacs-archaeology/src/casetab.c:98-107 | when all is deduced from an idempotent DOWN, CANON is DOWN, EQV is UP, UP goes round each class, and down-casing undoes it |
| CaseTable.AsciiDeduced | emacs-archaeology/src/casetab.c:204-227 | the built-in tables are the ones deduced from the built-in DOWN |
| Completion.FileNameCompletion | emacs-archaeology/src/dired.c:183-371 | answers nil if nothing matches, t if the only name that counts is the one typed, and else the longest common prefix of the names that count, directories with a slash; which count is said of each entry |
| Completion.Narrow | emacs-archaeology/src/dired.c:304-346 | what is left of the best match is its longest common prefix with the new name, the slash of a directory included |
| Completion.Accepts | emacs-archaeology/src/dired.c:236-278 | an entry is accepted exactly if it matches and is not ignored in this pass |
| Completion.CommonAllGreatest | emacs-archaeology/src/dired.c:283-346 | the fold is the greatest common prefix |
| Completion.DirectoryOrder | emacs-archaeology/src/dired.c:220-371 | the order of the directory does not matter |
| Completion.AnsweredRight | emacs-archaeology/src/dired.c:183-371 | entry by entry: nil exactly if nothing fits; t exactly if one entry counts and its name is the one typed; a text is the greatest common prefix of all names that count; a file with an ignored extension counts only if nothing better fits |
| Hexl.RoundTrip | emacs-archaeology/lib-src/hexl.c:118-207 | decoding the text of any data gives back the data, for every grouping, address and character set |
| Hexl.AllShown | emacs-archaeology/lib-src/hexl.c:160-207 | line by line and column by column, what the text of any data shows, and that there is nothing else |
| Hexl.LineShows | emacs-archaeology/lib-src/hexl.c:167-195 | the same of one line |
| Hexl.LineBack | emacs-archaeology/lib-src/hexl.c:120-158 | one line is read back whatever follows it |
| Hexl.FullBack | emacs-archaeology/lib-src/hexl.c:143-157 | a full line whose last byte is a blank takes the other path, and ends at the same place |
| Hexl.ShortBack | emacs-archaeology/lib-src/hexl.c:130-149 | a short line stops at its first blank column, and the rest of it is skipped |
| Hexl.Encode | emacs-archaeology/lib-src/hexl.c:160-207 | the loop with its line buffer prints the text of the data, and each line shows its address, its bytes in hexadecimal at their columns with a blank after each group, blanks for those missing, and each printable character or a dot |
| Hexl.Decode | emacs-archaeology/lib-src/hexl.c:118-158 | the loop prints the data of the text, for any text |
| Hexl.ThereAndBack | emacs-archaeology/lib-src/hexl.c:118-207 | the two programs one after the other give back any input |
| Timer.Timer.Scan | emacs-archaeology/lib-src/timer.c:77-96 | each event that is due goes off once and in order, the others stay, and the lowest free index, the highest used one and the earliest event are found |
| Timer.DueFired | emacs-archaeology/lib-src/timer.c:77-96 | what goes off are the events due, at strictly increasing places, each with its token |
| Timer.Timer.Notify | emacs-archaeology/lib-src/timer.c:63-102 | every event that is not due is in its place as it was and no other is left; what is written is the tokens at exactly the places whose time has come, once each and in order; slot and mevent are right, and the alarm is for the earliest event left |
| Timer.Timer.GetEvent | emacs-archaeology/lib-src/timer.c:104-137 | a request takes the lowest free place, and goes off at once exactly if its time has come, together with all others whose time has; it is refused as one too many exactly if every place is taken |
| Collection.ShowMarks | emacs-archaeology/src/alloc.c:1108-1130 | the cells whose cars are marked are those of the conses marked, and no cell holds anything else than before |
| Collection.SweepConses | emacs-archaeology/src/alloc.c:1187-1220 | after the sweep the cells in use are those of the conses marked, unmarked and otherwise as they were, and with the free ones they are all that were handed out |
| Collection.GarbageCollect | emacs-archaeology/src/alloc.c:792-929 | after a collection a cons cell is in use exactly if its cons can be reached from the roots, and holds what it held; the free list has all other cells handed out; references to strings read the same text, shared and ordered as before; whatever any field of a marked object refers to is marked or followed |
| Bytecode.Interpreter.PopApply | emacs-archaeology/src/bytecode.c:492-495 | operands popped one by one and the last replaced: the same as if all gave way to the result at once, or memory outside the stack was read |
| Bytecode.Interpreter.DiscardApply | emacs-archaeology/src/bytecode.c:264-278 | a function called on operands discarded at once: the same effect |
| Bytecode.Interpreter.Round | emacs-archaeology/src/bytecode.c:175-717 | one round of the loop does what the byte at pc says, stated of the bytes and the cells: a conditional jump is taken exactly by whether the top is nil, the target is the two bytes that follow, and each instruction leaves the operands it should; it is also the step of the table of effects |
| Bytecode.StepObeys | emacs-archaeology/src/bytecode.c:175-717 | every step of the table of effects obeys the bytes, as Round does |
| Bytecode.RunIf | emacs-archaeology/src/bytecode.c:303-313 | a compiled if, run to its return, gives the one constant or the other by whether the test is nil |
| Bytecode.PerformFits | emacs-archaeology/src/bytecode.c:181-717 | an instruction that finds the operands and bindings its place promises leaves what the next place promises |
| Bytecode.RunsFit | emacs-archaeology/src/bytecode.c:171-724 | however long a program with consistent depths runs, whatever it calls does, each place finds the operands and bindings it was promised, there is no overflow, no underflow, no abort, and no memory outside its own is used; when it returns, specpdl is what it was |
| Bytecode.ByteCode | emacs-archaeology/src/bytecode.c:146-725 | the interpreter, started on such a program, only goes on, returns with specpdl as it was, or is left by a throw |
| Bytecode.OverflowByPush | emacs-archaeology/src/bytecode.c:177-178 | the overflow error comes exactly after a push on a full stack, which has written past its end |
| Bytecode.UnderflowByDiscard | emacs-archaeology/src/bytecode.c:179-180 | the underflow error comes exactly after a discard on an empty stack |
| Etags.NumberLen | emacs-archaeology/lib-src/etags.c:1151-1162 | the digits of a number, without its sign |
| Etags.AddedAt | emacs-archaeology/lib-src/etags.c:1048-1085 | going left or right by the name in the middle leads to where a sorted list takes the new tag |
| Etags.AddedKeeps | emacs-archaeology/lib-src/etags.c:1048-1085 | the names stay in strict order, and a tag is let in exactly if its name is new |
| Etags.CompareIs | emacs-archaeology/lib-src/etags.c:1048-1048 | less by strcmp is earlier in the order of the first character that differs |
| Etags.FirstOfEachName | emacs-archaeology/lib-src/etags.c:1022-1087 | after any sequence of tags, those kept are the first of each name, in strict order of names |
| Etags.Appended | emacs-archaeology/lib-src/etags.c:1037-1044 | once the last node has one on its right, the list is longer by one and that is the last |
| Etags.Node.Insert | emacs-archaeology/lib-src/etags.c:1045-1086 | the tree below a node takes the new one where a sorted list would, or not at all, and every other link stays |
| Etags.Tags.AddNode | emacs-archaeology/lib-src/etags.c:1022-1087 | in etags mode the new tag comes last; in ctags mode the tree stays a search tree and takes it if its name is new |
| Etags.Tags.PutEntries | emacs-archaeology/lib-src/etags.c:1089-1149 | the lines of the tags are written from left to right |
| Etags.Tags.TotalSize | emacs-archaeology/lib-src/etags.c:1170-1193 | the loop to the right, with recursion to the left, sums up the sizes of all tags |
| Etags.SizeCounts | emacs-archaeology/lib-src/etags.c:1164-1193 | the size is the number of characters that put_entries writes, but for minus signs, and so right exactly if no number is negative |
| Etags.DecimalBack | emacs-archaeology/lib-src/etags.c:1108-1118 | a number is read back from what %d writes |
| Etags.PatternReadBack | emacs-archaeology/lib-src/etags.c:1121-1132 | whatever characters a pattern has, what is written between the delimiters does not end early and reads back as the pattern |
| Etags.EtagsLineBack | emacs-archaeology/lib-src/etags.c:1103-1119 | a line of etags is read back into line number, column, pattern and name |
| Etags.CtagsLineBack | emacs-archaeology/lib-src/etags.c:1120-1142 | a line of ctags is read back into name, file, and pattern or line number |
| Etags.EtagsFile | emacs-archaeology/lib-src/etags.c:755-762 | the section of a file has its tags in the order they were found, behind the number of their characters, minus signs not counted |
| Etags.Ctags | emacs-archaeology/lib-src/etags.c:690-704 | what ctags writes has a line for the first tag of each name, in strict order of names |

## Left out

- Word tagging, casts and the mark bit inside a word are datatypes here; a cell of string memory is a character, a header or padding. Sizes are unbounded integers, and so are costs and times.
- `mark_object` in pure storage and windows beyond their vector of slots are not part of the model. Large strings are only flagged; their own sweep, and the sweeps of symbols, markers, vectors and buffers, are left out.
- StringSpace.Strings.MakeString: says of a string too big for the blocks only that it is one, since its block of its own is not part of the model.
- Marking.Collector.Collect: asks for a way to nil other than the end of a list, because `mark_object` does not look there; Emacs has one in its obarray. The C stack, `gcprolist` and `specpdl` are a list of roots, the ones that may occur twice apart. It asks that nil lead to no killed buffer, since one that is met again while its name, which is nil, is marked is gone through twice.
- Collection.GarbageCollect: conses and slots are two views of one memory in C; here the marks are carried over between marking and sweeping.
- UpdateLine.UpdateLine: highlighted lines, `must_write_spaces` and the null kept before each line buffer, which a bound on the index replaces, are left out. A row whose record is not enabled is taken to be blank on the terminal, as `update_line` takes it. Glyphs 0 and 1 do not occur in lines, and `term.c` is not part of this model: its operations have plain contracts.
- Variables forwarded to C globals, `makunbound` on a buffer-local variable, killed buffers and `specbind` of slot variables (which bypasses the flag) are left out of the models of local variables. nil and t are the constants. `local_var_flags` is the set of the numbers of its bits.
- Names of variables in `Unwind` are never nil or t: setting or binding those is left out. So are the debugger, the limit on `specpdl` and C functions on it.
- FormLaws.MatchIs: is about lambda lists of required parameters, then `&optional` with its parameters if any, then `&rest` with one if any; what the code makes of other orders is in `Unwind.Match` only.
- Evaluator.Machine.UnbindTo: leaves out that the quit flag is put aside while cleanup forms run; QUIT is asked at each loop iteration and function call only.
- Evaluator.Machine.ThrowValue: compares tags by structure, which differs from `eq` for conses.
- Evaluator.Machine.FindClause: handlers set up by C code, for which the list of conditions is t or `error`, are left out.
- Evaluator.Machine.ApplyLambda: leaves out mocklisp functions.
- Evaluator.Machine.Eval: leaves out macros, subroutines called through Lisp, autoload and the limit on the evaluation depth.
- `cmcostinit` and terminal strings are left out of `CursorMotion`: each motion has a number of characters, less than BIG if it does not depend on its destination, and the least cost of an absolute motion is what it takes to the origin. In limbo after the last column the row is still known. `Wcm_init` is left out.
- Completion.FileNameCompletion: is for significant case; `file-name-all-completions` and the reporting of errors are left out. Both passes see the same directory.
- `Hexl` takes the mask of a group for a remainder, which it is for the four groupings; options and files are left out.
- Timer.Timer.GetEvent: takes the request already parsed, or none; handlers are atomic.
- Bytecode.ByteCode: what the functions it calls do is a parameter of each step, a value or a throw, and they leave specpdl as it was; garbage collection is left out. Depths are given, not found: the byte compiler is Lisp code.
- `Etags` leaves out the scanners that find tags, the warnings for duplicates, the formats of cxref and vgrind, and freeing.
- Editing primitives, the file-lock and mail-lock protocols, and everything else in the tree are left out.
