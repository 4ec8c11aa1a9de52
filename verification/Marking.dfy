/** The mark phase: which objects mark_object marks, and which slots it threads. */
module Marking {
  import opened Common
  import opened StringSpace

  /** A heap object and the slots it consists of.  The mark bit of a cons is in its car, of a
      symbol in its plist, of a marker in its chain, of a buffer in its name; vectors and large
      strings carry ARRAY_MARK_FLAG in their size word.  A symbol's `next` is a C pointer. */
  datatype Shape =
    | Cons(car: nat, cdr: nat)
    | Symbol(name: nat, value: nat, function_: nat, plist: nat, next: Option<nat>)
    | Vector(elems: seq<nat>)
    | Marker(chain: nat)
    | Buffer(name: nat, fields: seq<nat>)
    | LargeString

  /** The slots the collector looks through, in the order it does. */
  function Traced(o: Shape): seq<nat> {
    match o
    case Cons(car, cdr) => [car, cdr]
    case Symbol(name, value, function_, plist, _) => [name, value, function_, plist]
    case Vector(elems) => elems
    case Marker(_) => []
    case Buffer(name, fields) => [name] + fields
    case LargeString => []
  }

  /** Slot `s` is one of the fields through which the object keeps others alive: both fields of a cons, all four of
      a symbol, every element of a vector and every field of a buffer; but not a marker's place in the chain. */
  ghost predicate HasField(o: Shape, s: nat) {
    match o
    case Cons(car, cdr) => s == car || s == cdr
    case Symbol(name, value, function_, plist, _) => s == name || s == value || s == function_ || s == plist
    case Vector(elems) => s in elems
    case Marker(_) => false
    case Buffer(name, fields) => s == name || s in fields
    case LargeString => false
  }

  lemma TracedFields(o: Shape, s: nat)
    ensures s in Traced(o) <==> HasField(o, s)
  {
  }

  function MarkSlot(o: Shape): Option<nat> {
    match o
    case Cons(car, _) => Some(car)
    case Symbol(_, _, _, plist, _) => Some(plist)
    case Marker(chain) => Some(chain)
    case Buffer(name, _) => Some(name)
    case _ => None
  }

  /** The heap when the collection starts: its objects, the object each slot belongs to (no object
      for a root), what the slots hold, and the symbol nil. */
  datatype Graph = Graph(objs: seq<Shape>, owner: seq<Option<nat>>, slots: seq<Slot>, nil: nat)

  ghost predicate Owned(g: Graph, id: nat)
    requires id < |g.objs|
  {
    && (forall i :: 0 <= i < |Traced(g.objs[id])| ==>
          Traced(g.objs[id])[i] < |g.owner| && g.owner[Traced(g.objs[id])[i]] == Some(id))
    && Distinct(Traced(g.objs[id]))
    && (MarkSlot(g.objs[id]).Some? ==>
          MarkSlot(g.objs[id]).value < |g.owner| && g.owner[MarkSlot(g.objs[id]).value] == Some(id))
  }

  ghost predicate WellFormed(g: Graph) {
    && |g.owner| == |g.slots|
    && g.nil < |g.objs| && g.objs[g.nil].Symbol?
    && (forall id :: 0 <= id < |g.objs| ==> Owned(g, id))
    && (forall s :: 0 <= s < |g.slots| && g.slots[s].obj.Obj? ==> g.slots[s].obj.id < |g.objs|)
    && (forall s :: 0 <= s < |g.slots| ==> !g.slots[s].obj.Chain?)
    && (forall id :: 0 <= id < |g.objs| && g.objs[id].Symbol? && g.objs[id].next.Some? ==>
          g.objs[id].next.value < |g.objs| && g.objs[g.objs[id].next.value].Symbol?)
    && (forall id :: 0 <= id < |g.objs| && g.objs[id].Buffer? ==>
          var name := g.objs[id].name; name < |g.slots| && (g.slots[name].obj.Obj? ==> g.slots[name].obj.id == g.nil))
  }

  /** A buffer that was killed has the name nil. */
  ghost predicate Killed(g: Graph, id: nat) {
    id < |g.objs| && g.objs[id].Buffer? && g.objs[id].name < |g.slots| && g.slots[g.objs[id].name].obj.Obj?
  }

  /** nil leads to `reach` at most, and there is no killed buffer there. */
  ghost predicate NilClear(g: Graph, reach: set<nat>) {
    ClosedUnder(g, reach) && g.nil in reach && forall id :: id in reach ==> !Killed(g, id)
  }

  lemma BothClosed(g: Graph, a: set<nat>, b: set<nat>)
    requires ClosedUnder(g, a) && ClosedUnder(g, b)
    ensures ClosedUnder(g, a * b)
  {
    forall id | id in a * b ensures NextOf(g.objs[id]) <= a * b { }
  }

  /** Slot `s` is one of the traced slots of an object in `ids`. */
  ghost predicate SlotOf(g: Graph, ids: set<nat>, s: nat) {
    && s < |g.owner| && g.owner[s].Some?
    && g.owner[s].value in ids && g.owner[s].value < |g.objs|
    && s in Traced(g.objs[g.owner[s].value])
  }

  /** Slot `s` is the cdr of a cons. */
  ghost predicate IsCdr(g: Graph, s: nat) {
    && s < |g.owner| && g.owner[s].Some? && g.owner[s].value < |g.objs|
    && g.objs[g.owner[s].value].Cons? && g.objs[g.owner[s].value].cdr == s
  }

  /** What slot `s` refers to is marked, or it is the nil at the end of a list, which mark_object
      does not look at. */
  ghost predicate Reached(g: Graph, s: nat, marked: set<nat>)
    requires s < |g.slots|
  {
    g.slots[s].obj.Obj? ==> g.slots[s].obj.id in marked || (g.slots[s].obj.id == g.nil && IsCdr(g, s))
  }

  /** Everything the objects in `ids` refer to is marked, except through the slots of `pending` and
      the `next` fields that are in `later`. */
  ghost predicate Closed(g: Graph, ids: set<nat>, marked: set<nat>, pending: set<nat>, later: set<nat>) {
    && (forall s :: 0 <= s < |g.slots| && SlotOf(g, ids, s) && s !in pending ==> Reached(g, s, marked))
    && (forall id :: id in ids && id < |g.objs| && g.objs[id].Symbol? && g.objs[id].next.Some? ==>
          g.objs[id].next.value in marked || g.objs[id].next.value in later)
  }

  /** From (marked0, done0) the marker got to (marked, done): it went through the slots `extra` and
      through all the slots of the objects it marked, but for those still `pending`. */
  ghost predicate Grown(g: Graph, marked0: set<nat>, done0: set<nat>, marked: set<nat>, done: set<nat>,
                        extra: set<nat>, pending: set<nat>, later: set<nat>)
  {
    && marked0 <= marked && done0 <= done
    && pending !! done
    && (forall s :: s in done || s in pending <==> s in done0 || s in extra || SlotOf(g, marked - marked0, s))
    && (forall s :: s in extra && s !in pending && s < |g.slots| ==> Reached(g, s, marked + later))
    && Closed(g, marked - marked0, marked, pending, later)
  }

  function Elems(s: seq<nat>): set<nat> {
    set x | x in s
  }

  function NextOf(o: Shape): set<nat> {
    if o.Symbol? && o.next.Some? then {o.next.value} else {}
  }

  lemma GrownTwice(g: Graph, m0: set<nat>, d0: set<nat>, m1: set<nat>, d1: set<nat>, m2: set<nat>, d2: set<nat>,
                   e1: set<nat>, e2: set<nat>)
    requires Grown(g, m0, d0, m1, d1, e1, {}, {}) && Grown(g, m1, d1, m2, d2, e2, {}, {})
    ensures Grown(g, m0, d0, m2, d2, e1 + e2, {}, {})
  {
    forall s
      ensures SlotOf(g, m2 - m0, s) <==> SlotOf(g, m1 - m0, s) || SlotOf(g, m2 - m1, s)
    {
    }
  }

  lemma RootNotDone(g: Graph, m: set<nat>, d: set<nat>, e: set<nat>, s: nat)
    requires Grown(g, {}, {}, m, d, e, {}, {}) && s !in e && s < |g.owner| && g.owner[s].None?
    ensures s !in d
  {
  }

  lemma GrownStart(g: Graph, m: set<nat>, d: set<nat>, e: set<nat>)
    requires e !! d
    ensures Grown(g, m, d, m, d, e, e, {})
  {
  }

  /** Slots whose objects are marked need not be gone through again; nor do symbols. */
  lemma GrownSettle(g: Graph, m0: set<nat>, d0: set<nat>, m: set<nat>, d: set<nat>,
                    e: set<nat>, pending: set<nat>, later: set<nat>, p: set<nat>)
    requires Grown(g, m0, d0, m, d, e, pending, later) && p <= pending && later <= m
    requires forall s :: s in p && s < |g.slots| ==> Reached(g, s, m)
    ensures Grown(g, m0, d0, m, d + p, e, pending - p, {})
  {
    assert m + later == m;
  }

  /** Marking object `id` makes all its slots, and its successor, pending. */
  lemma GrownEnter(g: Graph, m0: set<nat>, d0: set<nat>, m: set<nat>, d: set<nat>,
                   e: set<nat>, pending: set<nat>, later: set<nat>, id: nat)
    requires WellFormed(g) && id < |g.objs| && id !in m && DoneOk(g, d0, m0)
    requires Grown(g, m0, d0, m, d, e, pending, later)
    requires forall s :: s in e && s < |g.slots| && g.owner[s].Some? ==> g.owner[s].value in m0
    requires forall s :: s in pending && s < |g.slots| ==> Reached(g, s, m + {id})
    requires later <= {id}
    ensures Grown(g, m0, d0, m + {id}, d + pending, e, Elems(Traced(g.objs[id])), NextOf(g.objs[id]))
  {
    var m', d', todo := m + {id}, d + pending, Elems(Traced(g.objs[id]));
    assert Owned(g, id);
    forall s | s in todo
      ensures s < |g.slots| && g.owner[s] == Some(id)
    {
    }
    forall s
      ensures SlotOf(g, m' - m0, s) <==> SlotOf(g, m - m0, s) || s in todo
    {
    }
    forall s | s in d'
      ensures s !in todo
    {
    }
  }

  /** The marker went through the pending slots `p`. */
  lemma GrownStep(g: Graph, m0: set<nat>, d0: set<nat>, m: set<nat>, d: set<nat>,
                  e: set<nat>, pending: set<nat>, later: set<nat>, p: set<nat>, m1: set<nat>, d1: set<nat>)
    requires Grown(g, m0, d0, m, d, e, pending, later) && p <= pending
    requires Grown(g, m, d, m1, d1, p, {}, {})
    requires forall s :: s in pending && s < |g.owner| && g.owner[s].Some? ==> g.owner[s].value in m
    requires WellFormed(g)
    ensures Grown(g, m0, d0, m1, d1, e, pending - p, later) && pending - p !! d1
  {
    forall s
      ensures SlotOf(g, m1 - m0, s) <==> SlotOf(g, m - m0, s) || SlotOf(g, m1 - m, s)
    {
    }
  }

  /** A slot is gone through only once its object is marked. */
  ghost predicate DoneOk(g: Graph, done: set<nat>, marked: set<nat>) {
    forall s :: s in done ==> s < |g.slots| && s < |g.owner| && (g.owner[s].Some? ==> g.owner[s].value in marked)
  }

  /** Every slot that refers to a small string refers to one of `recs`. */
  ghost predicate StringsKnown(g: Graph, recs: seq<Rec>) {
    forall s :: 0 <= s < |g.slots| && g.slots[s].obj.Str? ==>
      exists k :: 0 <= k < |recs| && g.slots[s].obj == Str(recs[k].addr)
  }

  /** The slots gone through are `done`: of them, those that referred to a string are threaded on
      it, and nothing else is threaded. */
  ghost predicate Tracks(g: Graph, recs0: seq<Rec>, slots: seq<Slot>, recs: seq<Rec>, done: set<nat>) {
    && Linked(g.slots, recs0, slots, recs)
    && (forall s :: 0 <= s < |slots| && s !in done ==> slots[s].obj == g.slots[s].obj && Unthreaded(recs, s))
    && (forall s :: 0 <= s < |slots| && s in done ==>
          if g.slots[s].obj.Str? then slots[s].obj.Chain? && !Unthreaded(recs, s)
          else slots[s].obj == g.slots[s].obj)
  }

  predicate Bit(o: Shape, id: nat, slots: seq<Slot>, flagged: set<nat>)
    requires MarkSlot(o).Some? ==> MarkSlot(o).value < |slots|
  {
    match MarkSlot(o)
    case Some(m) => slots[m].marked
    case None => id in flagged
  }

  /** The mark bits in the heap say `marked`. */
  ghost predicate Bits(g: Graph, slots: seq<Slot>, flagged: set<nat>, marked: set<nat>)
    requires WellFormed(g) && |slots| == |g.slots|
  {
    && (forall id :: id in marked ==> id < |g.objs|)
    && forall id :: 0 <= id < |g.objs| ==>
         assert Owned(g, id); (id in marked <==> Bit(g.objs[id], id, slots, flagged))
  }

  /** The root slots with their mark bit set, to show that they were gone through. */
  ghost predicate RootBits(g: Graph, slots: seq<Slot>, rootMarks: set<nat>)
    requires |slots| == |g.slots| == |g.owner|
  {
    forall s :: 0 <= s < |slots| && g.owner[s].None? ==> (slots[s].marked <==> s in rootMarks)
  }

  lemma BitsSet(g: Graph, slots: seq<Slot>, flagged: set<nat>, marked: set<nat>, id: nat)
    requires WellFormed(g) && |slots| == |g.slots| && Bits(g, slots, flagged, marked) && id < |g.objs|
    ensures Owned(g, id)
    ensures match MarkSlot(g.objs[id])
            case Some(m) => Bits(g, slots[m := slots[m].(marked := true)], flagged, marked + {id})
            case None => Bits(g, slots, flagged + {id}, marked + {id})
  {
    assert Owned(g, id);
    forall j | 0 <= j < |g.objs| && j != id
      ensures MarkSlot(g.objs[j]).Some? ==> MarkSlot(g.objs[j]) != MarkSlot(g.objs[id])
    {
      assert Owned(g, j);
    }
    forall j | 0 <= j < |g.objs|
      ensures Owned(g, j) && (j in marked <==> Bit(g.objs[j], j, slots, flagged))
    {
    }
  }

  lemma BitsFrame(g: Graph, slots: seq<Slot>, slots': seq<Slot>, flagged: set<nat>, marked: set<nat>)
    requires WellFormed(g) && |slots| == |g.slots| == |slots'| && Bits(g, slots, flagged, marked)
    requires forall s :: 0 <= s < |slots| ==> slots'[s].marked == slots[s].marked
    ensures Bits(g, slots', flagged, marked)
  {
    forall j | 0 <= j < |g.objs|
      ensures Owned(g, j) && (j in marked <==> Bit(g.objs[j], j, slots', flagged))
    {
      assert Owned(g, j);
      assert j in marked <==> Bit(g.objs[j], j, slots, flagged);
    }
  }

  lemma TracksThread(g: Graph, recs0: seq<Rec>, slots: seq<Slot>, recs: seq<Rec>, done: set<nat>,
                     slots': seq<Slot>, recs': seq<Rec>, s: nat, k: nat)
    requires Tracks(g, recs0, slots, recs, done) && s < |slots| && k < |recs| && s !in done
    requires slots[s].obj == Str(recs[k].addr)
    requires recs' == recs[k := recs[k].(refs := [s] + recs[k].refs)]
    requires |slots'| == |slots| && slots'[s].obj.Chain? && slots' == slots[s := slots'[s]]
    ensures Tracks(g, recs0, slots', recs', done + {s})
  {
    assert s in recs'[k].refs;
    forall i | 0 <= i < |recs'|
      ensures ReferredTo(g.slots, recs'[i].refs, recs0[i].addr)
    {
      assert ReferredTo(g.slots, recs[i].refs, recs0[i].addr);
    }
    forall t | 0 <= t < |slots| && t != s && Unthreaded(recs, t)
      ensures Unthreaded(recs', t)
    {
    }
    forall t | 0 <= t < |slots| && !Unthreaded(recs, t)
      ensures !Unthreaded(recs', t)
    {
      var i :| 0 <= i < |recs| && t in recs[i].refs;
      assert t in recs'[i].refs;
    }
    forall t | 0 <= t < |slots| && Unthreaded(recs', t)
      ensures slots'[t].obj == g.slots[t].obj
    {
      assert t !in recs'[k].refs;
      forall i | 0 <= i < |recs| ensures t !in recs[i].refs {
        assert t !in recs'[i].refs;
      }
    }
  }

  lemma TracksSkip(g: Graph, recs0: seq<Rec>, slots: seq<Slot>, recs: seq<Rec>, done: set<nat>, s: nat)
    requires Tracks(g, recs0, slots, recs, done) && s < |slots| && s !in done && !slots[s].obj.Str?
    ensures Tracks(g, recs0, slots, recs, done + {s})
  {
  }

  /** A slot the marker has not been through still holds what it held, and no string has moved. */
  lemma NotYet(g: Graph, recs0: seq<Rec>, slots: seq<Slot>, recs: seq<Rec>, done: set<nat>, s: nat)
    requires Tracks(g, recs0, slots, recs, done) && s < |slots| && s !in done
    ensures |slots| == |g.slots| && slots[s].obj == g.slots[s].obj
    ensures |recs| == |recs0| && forall k :: 0 <= k < |recs| ==> recs[k].addr == recs0[k].addr
  {
  }

  lemma TracksMark(g: Graph, recs0: seq<Rec>, slots: seq<Slot>, slots': seq<Slot>, recs: seq<Rec>, done: set<nat>)
    requires Tracks(g, recs0, slots, recs, done) && |slots'| == |slots|
    requires forall s :: 0 <= s < |slots| ==> slots'[s].obj == slots[s].obj
    ensures Tracks(g, recs0, slots', recs, done)
  {
  }

  ghost function AllIds(n: nat): (r: set<nat>)
    ensures forall id: nat :: id in r <==> id < n
  {
    if n == 0 then {} else AllIds(n - 1) + {n - 1}
  }

  /** A set of objects with everything they refer to. */
  ghost predicate ClosedUnder(g: Graph, reach: set<nat>) {
    && (forall id :: id in reach ==> id < |g.objs|)
    && (forall id, s :: id in reach && s in Traced(g.objs[id]) && s < |g.slots| && g.slots[s].obj.Obj? ==>
          g.slots[s].obj.id in reach)
    && (forall id :: id in reach ==> NextOf(g.objs[id]) <= reach)
  }

  ghost predicate Edge(g: Graph, a: nat, b: nat) {
    && a < |g.objs| && b < |g.objs|
    && ((g.objs[a].Symbol? && g.objs[a].next == Some(b))
        || exists s: nat :: HasField(g.objs[a], s) && s < |g.slots| && g.slots[s].obj == Obj(b))
  }

  ghost predicate FromRoot(g: Graph, roots: set<nat>, id: nat) {
    id < |g.objs| && exists s :: s in roots && s < |g.slots| && g.slots[s].obj == Obj(id)
  }

  /** A chain of references that starts at a root slot. */
  ghost predicate Path(g: Graph, roots: set<nat>, p: seq<nat>) {
    && p != [] && FromRoot(g, roots, p[0])
    && forall i :: 0 <= i < |p| - 1 ==> Edge(g, p[i], p[i + 1])
  }

  ghost predicate Reachable(g: Graph, roots: set<nat>, id: nat) {
    exists p :: Path(g, roots, p) && p[|p| - 1] == id
  }

  ghost function ReachableIds(g: Graph, roots: set<nat>): (r: set<nat>)
    ensures forall id :: id in r ==> id < |g.objs|
  {
    set id | id in AllIds(|g.objs|) && Reachable(g, roots, id)
  }

  lemma ReachableClosed(g: Graph, roots: set<nat>)
    requires WellFormed(g)
    ensures ClosedUnder(g, ReachableIds(g, roots))
    ensures forall s :: s in roots && s < |g.slots| && g.slots[s].obj.Obj? ==> g.slots[s].obj.id in ReachableIds(g, roots)
  {
    var r := ReachableIds(g, roots);
    forall a, b | a in r && Edge(g, a, b)
      ensures b in r
    {
      var p :| Path(g, roots, p) && p[|p| - 1] == a;
      assert Path(g, roots, p + [b]) && (p + [b])[|p|] == b;
    }
    forall id, s | id in r && s in Traced(g.objs[id]) && s < |g.slots| && g.slots[s].obj.Obj?
      ensures g.slots[s].obj.id in r
    {
      TracedFields(g.objs[id], s);
      assert Edge(g, id, g.slots[s].obj.id);
    }
    forall id | id in r
      ensures NextOf(g.objs[id]) <= r
    {
      forall b | b in NextOf(g.objs[id]) ensures b in r { assert Edge(g, id, b); }
    }
    forall s | s in roots && s < |g.slots| && g.slots[s].obj.Obj?
      ensures g.slots[s].obj.id in r
    {
      assert Path(g, roots, [g.slots[s].obj.id]);
    }
  }

  /** An edge that is not the cdr of a cons. */
  ghost predicate StrongEdge(g: Graph, a: nat, b: nat) {
    && a < |g.objs| && b < |g.objs|
    && ((g.objs[a].Symbol? && g.objs[a].next == Some(b))
        || exists s: nat :: HasField(g.objs[a], s) && s < |g.slots| && g.slots[s].obj == Obj(b) && !IsCdr(g, s))
  }

  /** nil can be come by without looking at the end of a list: through the obarray, say. */
  ghost predicate NilHeld(g: Graph, roots: set<nat>, p: seq<nat>) {
    && Path(g, roots, p) && p[|p| - 1] == g.nil
    && (forall i :: 0 <= i < |p| - 1 ==> p[i] != g.nil)
    && (|p| > 1 ==> StrongEdge(g, p[|p| - 2], g.nil))
  }

  lemma NilMarked(g: Graph, roots: set<nat>, p: seq<nat>)
    requires NilHeld(g, roots, p)
    ensures Reachable(g, roots, g.nil)
  {
  }

  /** What mark_object has marked, starting from nothing, is closed but for ends of lists. */
  lemma GrownFollows(g: Graph, marked: set<nat>, done: set<nat>, roots: set<nat>)
    requires WellFormed(g) && Grown(g, {}, {}, marked, done, roots, {}, {})
    requires forall s :: s in roots && s < |g.owner| ==> g.owner[s].None?
    ensures forall b :: FromRoot(g, roots, b) ==> b in marked
    ensures forall a, b :: a in marked && Edge(g, a, b) && (b != g.nil || StrongEdge(g, a, b)) ==> b in marked
  {
    assert marked - {} == marked;
    forall b | FromRoot(g, roots, b)
      ensures b in marked
    {
      var s :| s in roots && s < |g.slots| && g.slots[s].obj == Obj(b);
      assert Reached(g, s, marked + {});
    }
    forall a, b | a in marked && Edge(g, a, b) && (b != g.nil || StrongEdge(g, a, b))
      ensures b in marked
    {
      assert Owned(g, a);
      if b !in NextOf(g.objs[a]) {
        var s: nat :| HasField(g.objs[a], s) && s < |g.slots| && g.slots[s].obj == Obj(b) && (b == g.nil ==> !IsCdr(g, s));
        TracedFields(g.objs[a], s);
        assert SlotOf(g, marked, s) && Reached(g, s, marked);
      }
    }
  }

  lemma {:induction false} FollowPath(g: Graph, roots: set<nat>, p: seq<nat>, marked: set<nat>, n: nat)
    requires Path(g, roots, p) && n < |p|
    requires forall b :: FromRoot(g, roots, b) ==> b in marked
    requires forall a, b :: a in marked && Edge(g, a, b) && (b != g.nil || StrongEdge(g, a, b)) ==> b in marked
    requires g.nil in marked || ((forall i :: 0 <= i < n ==> p[i] != g.nil) && (n > 0 && p[n] == g.nil ==> StrongEdge(g, p[n - 1], g.nil)))
    ensures p[n] in marked
  {
    if n > 0 {
      FollowPath(g, roots, p, marked, n - 1);
      assert Edge(g, p[n - 1], p[n]);
    }
  }

  /** Whatever order the marker took and whatever it skipped, the objects marked are exactly the
      reachable ones. */
  lemma MarkedIsReachable(g: Graph, roots: set<nat>, marked: set<nat>, done: set<nat>, toNil: seq<nat>)
    requires WellFormed(g) && Grown(g, {}, {}, marked, done, roots, {}, {})
    requires forall s :: s in roots && s < |g.owner| ==> g.owner[s].None?
    requires marked <= ReachableIds(g, roots) && NilHeld(g, roots, toNil)
    ensures forall id: nat :: id in marked <==> Reachable(g, roots, id)
  {
    GrownFollows(g, marked, done, roots);
    FollowPath(g, roots, toNil, marked, |toNil| - 1);
    forall id: nat | Reachable(g, roots, id)
      ensures id in marked
    {
      var p :| Path(g, roots, p) && p[|p| - 1] == id;
      FollowPath(g, roots, p, marked, |p| - 1);
    }
  }

  lemma BitsRoot(g: Graph, slots: seq<Slot>, flagged: set<nat>, marked: set<nat>, s: nat)
    requires WellFormed(g) && |slots| == |g.slots| && Bits(g, slots, flagged, marked)
    requires s < |slots| && g.owner[s].None?
    ensures Bits(g, slots[s := slots[s].(marked := true)], flagged, marked)
  {
    forall j | 0 <= j < |g.objs|
      ensures Owned(g, j) && (j in marked <==> Bit(g.objs[j], j, slots[s := slots[s].(marked := true)], flagged))
    {
      assert Owned(g, j);
      assert j in marked <==> Bit(g.objs[j], j, slots, flagged);
    }
  }

  // ---- a whole collection ----

  /** The string references in the slots `traced` after a collection are those of before: the same
      texts, shared where they were shared, in the order they had. */
  ghost predicate StringsFollow(before: seq<Slot>, mem0: seq<Cell>, after: seq<Slot>, mem: seq<Cell>, traced: set<nat>)
    requires |after| == |before|
  {
    && (forall s :: s in traced && s < |before| && before[s].obj.Str? ==>
          && after[s].obj.Str?
          && ReadString(mem0, before[s].obj.addr).Some?
          && ReadString(mem, after[s].obj.addr) == ReadString(mem0, before[s].obj.addr))
    && (forall s, t :: s in traced && t in traced && s < |before| && t < |before|
                       && before[s].obj.Str? && before[t].obj.Str? ==>
          && after[s].obj.Str? && after[t].obj.Str?
          && (before[s].obj.addr < before[t].obj.addr <==> after[s].obj.addr < after[t].obj.addr))
  }

  /** The string a slot was threaded on. */
  lemma ThreadedOn(g: Graph, recs0: seq<Rec>, slots: seq<Slot>, recs: seq<Rec>, done: set<nat>, s: nat) returns (k: nat)
    requires Tracks(g, recs0, slots, recs, done) && s in done && s < |slots| && g.slots[s].obj.Str?
    ensures k < |recs| && s in recs[k].refs && g.slots[s].obj == Str(recs0[k].addr)
  {
    k :| 0 <= k < |recs| && s in recs[k].refs;
    assert ReferredTo(g.slots, recs[k].refs, recs0[k].addr);
  }

  /** What compaction does to the strings as the marker has tracked them. */
  lemma TrackedCompaction(g: Graph, mem0: seq<Cell>, recs0: seq<Rec>, slots1: seq<Slot>, recs1: seq<Rec>,
                          done: set<nat>, mem2: seq<Cell>, slots2: seq<Slot>, recs2: seq<Rec>)
    requires AllStored(mem0, g.slots, recs0) && Tracks(g, recs0, slots1, recs1, done)
    requires Moved(mem2, slots2, slots1, Live(recs1, |recs1|), recs2) && Ordered(recs2)
    ensures |recs1| == |recs0| && |slots2| == |slots1| == |g.slots|
    ensures forall k :: 0 <= k < |recs1| && recs1[k].refs != [] ==>
              && Rank(recs1, k) < |recs2|
              && ReadString(mem2, NewAddress(recs1, recs2, k)) == ReadString(mem0, recs0[k].addr) == Some(recs0[k].text)
              && Repointed(slots2, slots1, recs1[k].refs, NewAddress(recs1, recs2, k))
    ensures forall j, k :: 0 <= j < k < |recs1| && recs1[j].refs != [] && recs1[k].refs != [] ==>
              NewAddress(recs1, recs2, j) < NewAddress(recs1, recs2, k)
    ensures forall s :: 0 <= s < |slots1| && Unthreaded(recs1, s) ==> slots2[s] == slots1[s]
  {
    hide Moved, Live, ReadString, AllStored, Stored, Repointed, Ordered;
    TracksLinked(g, recs0, slots1, recs1, done);
    CompactionKeepsStrings(mem0, g.slots, recs0, slots1, recs1, mem2, slots2, recs2);
    MovedSlots(mem2, slots2, slots1, Live(recs1, |recs1|), recs2);
  }

  lemma TracksLinked(g: Graph, recs0: seq<Rec>, slots1: seq<Slot>, recs1: seq<Rec>, done: set<nat>)
    requires Tracks(g, recs0, slots1, recs1, done)
    ensures Linked(g.slots, recs0, slots1, recs1) && |recs1| == |recs0| && |slots1| == |g.slots|
  {
  }

  lemma MovedSlots(mem: seq<Cell>, slots: seq<Slot>, before: seq<Slot>, live: seq<Rec>, dst: seq<Rec>)
    requires Moved(mem, slots, before, live, dst)
    ensures |slots| == |before|
  {
  }

  lemma TracedFollow(g: Graph, mem0: seq<Cell>, recs0: seq<Rec>, slots1: seq<Slot>, recs1: seq<Rec>,
                     done: set<nat>, mem2: seq<Cell>, slots2: seq<Slot>, recs2: seq<Rec>)
    requires AllStored(mem0, g.slots, recs0) && Ordered(recs0) && Tracks(g, recs0, slots1, recs1, done)
    requires Moved(mem2, slots2, slots1, Live(recs1, |recs1|), recs2) && Ordered(recs2)
    ensures StringsFollow(g.slots, mem0, slots2, mem2, done)
  {
    hide Moved, Live, Rank, ReadString, Tracks, AllStored, Stored, NewAddress;
    TrackedCompaction(g, mem0, recs0, slots1, recs1, done, mem2, slots2, recs2);
    forall s, t | s in done && t in done && s < |g.slots| && t < |g.slots| && g.slots[s].obj.Str? && g.slots[t].obj.Str?
      ensures && slots2[s].obj.Str? && slots2[t].obj.Str?
              && ReadString(mem0, g.slots[s].obj.addr).Some?
              && ReadString(mem2, slots2[s].obj.addr) == ReadString(mem0, g.slots[s].obj.addr)
              && (g.slots[s].obj.addr < g.slots[t].obj.addr <==> slots2[s].obj.addr < slots2[t].obj.addr)
    {
      var j := ThreadedOn(g, recs0, slots1, recs1, done, s);
      var k := ThreadedOn(g, recs0, slots1, recs1, done, t);
      assert slots2[s].obj == Str(NewAddress(recs1, recs2, j));
      assert slots2[t].obj == Str(NewAddress(recs1, recs2, k));
      assert j < k ==> End(recs0[j]) <= recs0[k].addr;
      assert k < j ==> End(recs0[k]) <= recs0[j].addr;
    }
  }

  lemma OthersStay(g: Graph, mem0: seq<Cell>, recs0: seq<Rec>, slots1: seq<Slot>, recs1: seq<Rec>,
                   done: set<nat>, mem2: seq<Cell>, slots2: seq<Slot>, recs2: seq<Rec>)
    requires AllStored(mem0, g.slots, recs0) && Tracks(g, recs0, slots1, recs1, done)
    requires Moved(mem2, slots2, slots1, Live(recs1, |recs1|), recs2) && Ordered(recs2)
    ensures forall s :: 0 <= s < |slots2| ==> slots2[s].marked == slots1[s].marked
    ensures forall s :: 0 <= s < |slots2| && !(s in done && g.slots[s].obj.Str?) ==> slots2[s].obj == g.slots[s].obj
  {
    hide Live, Rank, ReadString, AllStored, Stored, NewAddress;
    TrackedCompaction(g, mem0, recs0, slots1, recs1, done, mem2, slots2, recs2);
    forall s | 0 <= s < |slots2|
      ensures slots2[s].marked == slots1[s].marked
      ensures !(s in done && g.slots[s].obj.Str?) ==> slots2[s].obj == g.slots[s].obj
    {
      if !Unthreaded(recs1, s) {
        var k :| 0 <= k < |recs1| && s in recs1[k].refs;
        assert ReferredTo(g.slots, recs1[k].refs, recs0[k].addr);
        assert Repointed(slots2, slots1, recs1[k].refs, NewAddress(recs1, recs2, k));
      }
    }
  }

  lemma SurvivorsReferredTo(g: Graph, recs0: seq<Rec>, slots1: seq<Slot>, recs1: seq<Rec>,
                            done: set<nat>, mem2: seq<Cell>, slots2: seq<Slot>, recs2: seq<Rec>)
    requires Tracks(g, recs0, slots1, recs1, done)
    requires Moved(mem2, slots2, slots1, Live(recs1, |recs1|), recs2)
    ensures forall i :: 0 <= i < |recs2| ==> exists s :: s in done && s < |slots2| && slots2[s].obj == Str(recs2[i].addr)
  {
    forall i | 0 <= i < |recs2|
      ensures exists s :: s in done && s < |slots2| && slots2[s].obj == Str(recs2[i].addr)
    {
      var k := OnlyLiveSurvive(recs1, recs2, i);
      var s := recs1[k].refs[0];
      assert !Unthreaded(recs1, s);
      assert ReferredTo(g.slots, recs1[k].refs, recs0[k].addr) && s in recs1[k].refs;
      assert Repointed(slots2, slots1, Live(recs1, |recs1|)[i].refs, recs2[i].addr);
    }
  }

  /** Slot `s` was gone through, and what it refers to is marked. */
  ghost predicate Followed(g: Graph, marked: set<nat>, done: set<nat>, s: nat) {
    s in done && s < |g.slots| && (g.slots[s].obj.Obj? ==> g.slots[s].obj.id in marked)
  }

  /** What being marked does for a symbol, a cons and so on. */
  ghost predicate FieldsFollowed(g: Graph, marked: set<nat>, done: set<nat>) {
    forall id: nat :: id < |g.objs| ==>
      match g.objs[id]
      case Cons(car, cdr) => id in marked ==> Followed(g, marked, done, car) && Followed(g, marked, done, cdr)
      case Symbol(name, value, function_, plist, next) => id in marked ==>
        && Followed(g, marked, done, name) && Followed(g, marked, done, value)
        && Followed(g, marked, done, function_) && Followed(g, marked, done, plist)
        && (next.Some? ==> next.value in marked)
      case Vector(elems) => id in marked ==> forall s :: s in elems ==> Followed(g, marked, done, s)
      case Marker(chain) => chain !in done
      case Buffer(name, fields) => id in marked ==>
        Followed(g, marked, done, name) && forall s :: s in fields ==> Followed(g, marked, done, s)
      case LargeString => true
  }

  /** Slot `s` is a field of one of the objects `ids`. */
  ghost predicate FieldOf(g: Graph, ids: set<nat>, s: nat) {
    exists id :: id in ids && id < |g.objs| && HasField(g.objs[id], s)
  }

  lemma SlotIsField(g: Graph, ids: set<nat>, s: nat)
    requires WellFormed(g)
    ensures SlotOf(g, ids, s) <==> FieldOf(g, ids, s)
  {
    if SlotOf(g, ids, s) {
      TracedFields(g.objs[g.owner[s].value], s);
    }
    if id :| id in ids && id < |g.objs| && HasField(g.objs[id], s) {
      TracedFields(g.objs[id], s);
      assert Owned(g, id);
    }
  }

  lemma FieldFollowed(g: Graph, marked: set<nat>, done: set<nat>, roots: set<nat>, id: nat, s: nat)
    requires WellFormed(g) && Grown(g, {}, {}, marked, done, roots, {}, {}) && g.nil in marked
    requires id in marked && id < |g.objs| && HasField(g.objs[id], s)
    ensures Followed(g, marked, done, s)
  {
    assert marked - {} == marked;
    TracedFields(g.objs[id], s);
    assert Owned(g, id);
    assert SlotOf(g, marked, s) && Reached(g, s, marked);
  }

  lemma ChainNotDone(g: Graph, marked: set<nat>, done: set<nat>, roots: set<nat>, id: nat)
    requires WellFormed(g) && Grown(g, {}, {}, marked, done, roots, {}, {})
    requires forall s :: s in roots ==> s < |g.owner| && g.owner[s].None?
    requires id < |g.objs| && g.objs[id].Marker?
    ensures g.objs[id].chain !in done
  {
    assert Owned(g, id);
  }

  /** Every field of every marked object was followed, the end of a list too, nil being marked; and no marker's chain. */
  lemma AllFollowed(g: Graph, marked: set<nat>, done: set<nat>, roots: set<nat>)
    requires WellFormed(g) && Grown(g, {}, {}, marked, done, roots, {}, {}) && g.nil in marked
    requires forall s :: s in roots ==> s < |g.owner| && g.owner[s].None?
    ensures FieldsFollowed(g, marked, done)
  {
    hide Grown, Followed;
    forall id: nat, s: nat | id in marked && id < |g.objs| && HasField(g.objs[id], s)
      ensures Followed(g, marked, done, s)
    {
      FieldFollowed(g, marked, done, roots, id, s);
    }
    forall id: nat | id < |g.objs| && g.objs[id].Marker?
      ensures g.objs[id].chain !in done
    {
      ChainNotDone(g, marked, done, roots, id);
    }
    forall id: nat | id in marked && id < |g.objs| && g.objs[id].Symbol? && g.objs[id].next.Some?
      ensures g.objs[id].next.value in marked
    {
      NextMarked(g, marked, done, roots, id);
    }
  }

  lemma NextMarked(g: Graph, marked: set<nat>, done: set<nat>, roots: set<nat>, id: nat)
    requires Grown(g, {}, {}, marked, done, roots, {}, {})
    requires id in marked && id < |g.objs| && g.objs[id].Symbol? && g.objs[id].next.Some?
    ensures g.objs[id].next.value in marked
  {
    assert marked - {} == marked;
  }

  lemma DoneAre(g: Graph, marked: set<nat>, done: set<nat>, fixed: seq<nat>, pointed: seq<nat>)
    requires Grown(g, {}, {}, marked, done, Elems(fixed) + Elems(pointed), {}, {})
    requires WellFormed(g)
    ensures forall s :: s in done <==> s in fixed || s in pointed || FieldOf(g, marked, s)
  {
    hide FieldOf, SlotOf, WellFormed;
    assert marked - {} == marked;
    forall s ensures SlotOf(g, marked, s) <==> FieldOf(g, marked, s) { SlotIsField(g, marked, s); }
  }

  class Collector {
    const space: Strings
    const objs: seq<Shape>
    const nil: nat
    var flagged: set<nat>        // vectors and large strings with ARRAY_MARK_FLAG set
    ghost const g: Graph
    ghost const recs0: seq<Rec>  // the strings when the collection starts
    ghost const nilReach: set<nat>   // all that nil leads to, at least
    ghost var marked: set<nat>
    ghost var done: set<nat>     // the slots mark_object has been through
    ghost var rootMarks: set<nat>

    ghost predicate Inv()
      reads this, space
    {
      && WellFormed(g) && objs == g.objs && nil == g.nil && StringsKnown(g, recs0) && NilClear(g, nilReach)
      && space.Valid() && |space.slots| == |g.slots| == |g.owner|
      && Tracks(g, recs0, space.slots, space.recs, done)
      && Bits(g, space.slots, flagged, marked)
      && RootBits(g, space.slots, rootMarks)
    }

    ghost function Unmarked(): set<nat>
      reads this
    {
      AllIds(|objs|) - marked
    }

    /** A collection starts: nothing is marked and no slot is threaded. */
    constructor (space: Strings, g: Graph, ghost nilReach: set<nat>)
      requires WellFormed(g) && NilClear(g, nilReach)
      requires space.Valid() && WellFormed(g) && space.slots == g.slots && StringsKnown(g, space.recs)
      requires forall k :: 0 <= k < |space.recs| ==> space.recs[k].refs == []
      requires forall s :: 0 <= s < |g.slots| ==> !g.slots[s].marked
      ensures Inv() && marked == {} && done == {} && rootMarks == {}
      ensures this.space == space && this.g == g && recs0 == space.recs
    {
      this.space, objs, nil := space, g.objs, g.nil;
      flagged, marked, done, rootMarks := {}, {}, {}, {};
      this.g, recs0, this.nilReach := g, space.recs, nilReach;
      new;
      forall id | 0 <= id < |g.objs|
        ensures Owned(g, id) && !Bit(g.objs[id], id, space.slots, {})
      {
        assert Owned(g, id);
      }
    }

    /** The string, integer and subr cases of mark_object: a string reference is threaded, nothing
        else is done. */
    method MarkLeaf(ptr: nat)
      requires Inv() && ptr < |g.slots| && ptr !in done && !g.slots[ptr].obj.Obj?
      modifies space`mem, space`slots, space`recs, this`done
      ensures Inv() && done == old(done) + {ptr}
    {
      hide Owned, WellFormed, Tracks, RefsApart, Ordered, AllStored, Scan, BlocksOk;
      NotYet(g, recs0, space.slots, space.recs, done, ptr);
      if space.slots[ptr].obj.Str? {
        ghost var k :| 0 <= k < |recs0| && g.slots[ptr].obj == Str(recs0[k].addr);
        space.Thread(ptr, k);
        TracksThread(g, recs0, old(space.slots), old(space.recs), done, space.slots, space.recs, ptr, k);
        BitsFrame(g, old(space.slots), space.slots, flagged, marked);
      } else {
        TracksSkip(g, recs0, space.slots, space.recs, done, ptr);
      }
      done := done + {ptr};
    }

    /** Is the mark bit of `id` set? */
    method IsMarked(id: nat) returns (b: bool)
      requires Inv() && id < |objs|
      ensures b == (id in marked)
    {
      assert Owned(g, id);
      b := Bit(objs[id], id, space.slots, flagged);
    }

    /** XMARK on the slot that holds the mark bit of `id`, or ARRAY_MARK_FLAG in its size word. */
    method SetMark(id: nat)
      requires Inv() && id < |objs|
      modifies space`slots, this`flagged, this`marked
      ensures Inv() && marked == old(marked) + {id}
      ensures |space.slots| == |old(space.slots)|
    {
      BitsSet(g, space.slots, flagged, marked, id);
      match MarkSlot(objs[id]) {
        case Some(m) =>
          space.slots := space.slots[m := space.slots[m].(marked := true)];
          StoredRemark(space.mem, old(space.slots), space.slots, space.recs);
          TracksMark(g, recs0, old(space.slots), space.slots, space.recs, done);
        case None =>
          flagged := flagged + {id};
      }
      marked := marked + {id};
    }

    /** mark_object on the slots `ss` of one object, one after the other. */
    method MarkSlots(ss: seq<nat>, ghost reach: set<nat>)
      requires Inv() && DoneOk(g, done, marked) && ClosedUnder(g, reach)
      requires Distinct(ss)
      requires forall s :: s in ss ==>
                 s < |g.slots| && s < |g.owner| && s !in done && (g.owner[s].Some? ==> g.owner[s].value in marked)
      requires forall s :: s in ss && g.slots[s].obj.Obj? ==> g.slots[s].obj.id in reach
      modifies this`flagged, this`marked, this`done, space`mem, space`slots, space`recs
      ensures Inv() && DoneOk(g, done, marked)
      ensures Grown(g, old(marked), old(done), marked, done, Elems(ss), {}, {})
      ensures marked <= old(marked) + reach
      decreases Unmarked(), 2, |ss|
    {
      hide Tracks, Bits, Closed, StringsKnown, WellFormed, RootBits, Grown, DoneOk, ClosedUnder;
      ghost var m0, d0 := marked, done;
      ghost var todo: set<nat> := Elems(ss);
      GrownStart(g, m0, d0, todo);
      for i := 0 to |ss|
        invariant Inv() && DoneOk(g, done, marked)
        invariant Grown(g, m0, d0, marked, done, Elems(ss), todo, {}) && todo !! done
        invariant forall s :: s in todo ==> s < |g.slots| && s < |g.owner| && (g.owner[s].Some? ==> g.owner[s].value in marked)
        invariant forall s :: s in todo <==> s in ss[i..]
        invariant m0 <= marked <= m0 + reach
      {
        ghost var m, d := marked, done;
        assert ss[i] in ss[i..] && ss[i] in ss;
        assert {ss[i]} <= todo;
        MarkObject(ss[i], reach);
        GrownStep(g, m0, d0, m, d, Elems(ss), todo, {}, {ss[i]}, marked, done);
        todo := todo - {ss[i]};
        assert ss[i..] == [ss[i]] + ss[i + 1..];
      }
      assert todo == {};
    }

    /** XMARK on a root slot. */
    method SetRootMark(s: nat)
      requires Inv() && s < |g.slots| && g.owner[s].None?
      modifies space`slots, this`rootMarks
      ensures Inv() && rootMarks == old(rootMarks) + {s}
    {
      BitsRoot(g, space.slots, flagged, marked, s);
      space.slots := space.slots[s := space.slots[s].(marked := true)];
      StoredRemark(space.mem, old(space.slots), space.slots, space.recs);
      TracksMark(g, recs0, old(space.slots), space.slots, space.recs, done);
      rootMarks := rootMarks + {s};
    }

    /** The roots.  The slots `fixed` lie in structures of their own and are gone through once; a
        slot of `pointed`, which several structures may point to, is marked so as not to be gone
        through twice. */
    method MarkRoots(fixed: seq<nat>, pointed: seq<nat>, ghost reach: set<nat>)
      requires Inv() && marked == {} && done == {} && rootMarks == {} && ClosedUnder(g, reach)
      requires Distinct(fixed) && forall s :: s in pointed ==> s !in fixed
      requires forall s :: s in fixed || s in pointed ==> s < |g.slots| && g.owner[s].None?
      requires forall s :: (s in fixed || s in pointed) && g.slots[s].obj.Obj? ==> g.slots[s].obj.id in reach
      modifies this`flagged, this`marked, this`done, this`rootMarks, space`mem, space`slots, space`recs
      ensures Inv() && Grown(g, {}, {}, marked, done, Elems(fixed) + Elems(pointed), {}, {}) && marked <= reach
      ensures rootMarks == Elems(pointed)
    {
      hide Tracks, Bits, Closed, StringsKnown, WellFormed, RootBits, Grown, ClosedUnder;
      MarkSlots(fixed, reach);
      ghost var seen := {};
      assert Elems(fixed) + seen == Elems(fixed);
      for i := 0 to |pointed|
        invariant Inv() && DoneOk(g, done, marked) && marked <= reach
        invariant Grown(g, {}, {}, marked, done, Elems(fixed) + seen, {}, {})
        invariant seen == Elems(pointed[..i]) == rootMarks
      {
        assert pointed[i] in pointed && pointed[i] !in Elems(fixed);
        MarkPointed(pointed[i], Elems(fixed), seen, seen + {pointed[i]}, reach);
        seen := seen + {pointed[i]};
        assert Elems(pointed[..i + 1]) == Elems(pointed[..i]) + {pointed[i]} by {
          assert pointed[..i + 1] == pointed[..i] + [pointed[i]];
        }
      }
      assert pointed[..|pointed|] == pointed;
    }

    /** A root slot that is pointed to. */
    method MarkPointed(s: nat, ghost fixed: set<nat>, ghost seen: set<nat>, ghost seen': set<nat>,
                       ghost reach: set<nat>)
      requires Inv() && DoneOk(g, done, marked) && marked <= reach && ClosedUnder(g, reach)
      requires Grown(g, {}, {}, marked, done, fixed + seen, {}, {}) && seen == rootMarks && seen' == seen + {s}
      requires s < |g.slots| && s < |g.owner| && g.owner[s].None? && s !in fixed
      requires g.slots[s].obj.Obj? ==> g.slots[s].obj.id in reach
      modifies this`flagged, this`marked, this`done, this`rootMarks, space`mem, space`slots, space`recs
      ensures Inv() && DoneOk(g, done, marked) && marked <= reach
      ensures Grown(g, {}, {}, marked, done, fixed + seen', {}, {}) && seen' == rootMarks
    {
      hide Tracks, Bits, Closed, StringsKnown, WellFormed, RootBits, Grown, ClosedUnder;
      var b := IsRootMarked(s);
      if b {
        assert seen' == seen;
      } else {
        ghost var m, d := marked, done;
        RootNotDone(g, m, d, fixed + seen, s);
        MarkObject(s, reach);
        GrownTwice(g, {}, {}, m, d, marked, done, fixed + seen, {s});
        assert fixed + seen + {s} == fixed + seen';
        SetRootMark(s);
      }
    }

    method IsRootMarked(s: nat) returns (b: bool)
      requires Inv() && s < |g.slots| && g.owner[s].None?
      ensures b == (s in rootMarks)
    {
      b := space.slots[s].marked;
    }

    /** garbage-collect up to the string space: mark from the roots, then compact the strings.
        `toNil` is any way to nil other than the end of a list. */
    method Collect(fixed: seq<nat>, pointed: seq<nat>, ghost toNil: seq<nat>) returns (stringChars: nat)
      requires Inv() && marked == {} && done == {} && rootMarks == {} && recs0 == space.recs && g.slots == space.slots
      requires Distinct(fixed) && forall s :: s in pointed ==> s !in fixed
      requires forall s :: s in fixed || s in pointed ==> s < |g.slots| && g.owner[s].None?
      requires NilHeld(g, Elems(fixed) + Elems(pointed), toNil)
      modifies this`flagged, this`marked, this`done, this`rootMarks, space
      ensures space.Valid() && stringChars == TotalSize(space.recs) && |space.slots| == |g.slots|
      ensures forall id: nat :: id in marked <==> Reachable(g, Elems(fixed) + Elems(pointed), id)
      ensures Bits(g, space.slots, flagged, marked)
      ensures forall s :: s in done <==> s in fixed || s in pointed || FieldOf(g, marked, s)
      ensures FieldsFollowed(g, marked, done)
      ensures StringsFollow(g.slots, old(space.mem), space.slots, space.mem, done)
      ensures forall s :: 0 <= s < |g.slots| && !(s in done && g.slots[s].obj.Str?) ==>
                space.slots[s].obj == g.slots[s].obj
      ensures forall i :: 0 <= i < |space.recs| ==>
                exists s :: s in done && s < |g.slots| && space.slots[s].obj == Str(space.recs[i].addr)
    {
      hide Tracks, Bits, Closed, StringsKnown, RootBits, Grown, ClosedUnder, NilHeld, Ordered, AllStored, Scan, BlocksOk,
           Moved, Live, StringsFollow, FieldOf, Owned, WellFormed, Reachable, FieldsFollowed, Killed;
      ghost var roots := Elems(fixed) + Elems(pointed);
      ghost var reach := ReachableIds(g, roots);
      ReachableClosed(g, roots);
      MarkRoots(fixed, pointed, reach);
      MarkedIsReachable(g, roots, marked, done, toNil);
      DoneAre(g, marked, done, fixed, pointed);
      NilMarked(g, roots, toNil);
      AllFollowed(g, marked, done, roots);
      ghost var slots1, recs1 := space.slots, space.recs;
      stringChars := space.CompactStrings();
      TracedFollow(g, old(space.mem), recs0, slots1, recs1, done, space.mem, space.slots, space.recs);
      OthersStay(g, old(space.mem), recs0, slots1, recs1, done, space.mem, space.slots, space.recs);
      SurvivorsReferredTo(g, recs0, slots1, recs1, done, space.mem, space.slots, space.recs);
      BitsFrame(g, slots1, space.slots, flagged, marked);
    }

    /** What mark_object knows while it goes from object to object: it started at the slots `e` with
        (m0, d0), has marked `m`, and is left with the slots `pend` or the symbol in `later`. */
    ghost predicate Going(m0: set<nat>, d0: set<nat>, e: set<nat>, m: set<nat>, pend: set<nat>, later: set<nat>,
                          reach: set<nat>)
      reads this, space
    {
      && Inv() && DoneOk(g, done, m) && DoneOk(g, d0, m0) && ClosedUnder(g, reach)
      && Grown(g, m0, d0, m, done, e, pend, later) && pend !! done
      && (forall s :: s in e && s < |g.owner| && g.owner[s].Some? ==> g.owner[s].value in m0)
      && (forall s :: s in pend ==> s < |g.slots| && (g.owner[s].Some? ==> g.owner[s].value in m))
      && m <= m0 + reach
    }

    /** Slot `p` holds no string, so being through with it changes nothing. */
    ghost method Skip(p: nat)
      requires Inv() && p < |g.slots| && p !in done && !g.slots[p].obj.Str?
      modifies this`done
      ensures Inv() && done == old(done) + {p}
    {
      TracksSkip(g, recs0, space.slots, space.recs, done, p);
      done := done + {p};
    }

    /** What a slot not yet gone through holds. */
    method Peek(p: nat) returns (obj: Object)
      requires Inv() && p < |g.slots| && p !in done
      ensures obj == g.slots[p].obj && !obj.Chain?
    {
      obj := space.slots[p].obj;
    }

    /** Nothing is left to do below slot `p`: bookkeeping only. */
    ghost method Settle(m0: set<nat>, d0: set<nat>, e: set<nat>, pend: set<nat>, later: set<nat>, reach: set<nat>,
                        p: nat,
                        rest: set<nat>)
      requires Going(m0, d0, e, marked, pend, later, reach) && later <= marked && rest == pend - {p}
      requires p in pend ==> !g.slots[p].obj.Str? && Reached(g, p, marked)
      modifies this`done
      ensures Going(m0, d0, e, marked, rest, {}, reach)
    {
      if p in pend {
        GrownSettle(g, m0, d0, marked, done, e, pend, later, {p});
        Skip(p);
      } else {
        GrownSettle(g, m0, d0, marked, done, e, pend, later, {});
        assert done + {} == done && pend - {} == pend == pend - {p};
      }
    }

    /** Object `id`, met through slot `p` or the symbol list, was just marked: its slots are pending. */
    ghost method Entered(id: nat, m: set<nat>, m0: set<nat>, d0: set<nat>, e: set<nat>, pend: set<nat>,
                         later: set<nat>, reach: set<nat>, p: nat)
      requires Going(m0, d0, e, m, pend, later, reach) && id in reach && id !in m && marked == m + {id}
      requires pend <= {p} && later <= {id}
      requires p in pend ==> g.slots[p].obj == Obj(id)
      modifies this`done
      ensures Going(m0, d0, e, marked, Elems(Traced(objs[id])), NextOf(objs[id]), reach)
    {
      GrownEnter(g, m0, d0, m, done, e, pend, later, id);
      assert Owned(g, id);
      if p in pend {
        TracksSkip(g, recs0, space.slots, space.recs, done, p);
        assert pend == {p};
      } else {
        assert pend == {} && done + pend == done;
      }
      done := done + pend;
    }

    /** Markers, large strings: only the mark is set, whether or not it was set before. */
    method MarkOnly(id: nat, ghost m0: set<nat>, ghost d0: set<nat>, ghost e: set<nat>, ghost p: nat,
                    ghost reach: set<nat>)
      requires Going(m0, d0, e, marked, {p}, {}, reach) && id in reach && g.slots[p].obj == Obj(id)
      requires Traced(objs[id]) == [] && NextOf(objs[id]) == {}
      modifies this`flagged, this`marked, this`done, space`slots
      ensures Going(m0, d0, e, marked, {}, {}, reach) && old(marked) <= marked
    {
      hide Grown, Tracks, Bits, Closed, DoneOk, StringsKnown;
      ghost var m := marked;
      SetMark(id);
      if id in m {
        assert marked == m;
        Settle(m0, d0, e, {p}, {}, reach, p, {});
      } else {
        Entered(id, m, m0, d0, e, {p}, {}, reach, p);
        assert Elems([]) == {};
      }
    }

    /** mark_object on some of the pending slots. */
    method Descend(ss: seq<nat>, ghost m0: set<nat>, ghost d0: set<nat>, ghost e: set<nat>, ghost pend: set<nat>,
                   ghost later: set<nat>, ghost reach: set<nat>, ghost rest: set<nat>)
      requires Going(m0, d0, e, marked, pend, later, reach) && Distinct(ss) && Elems(ss) <= pend
      requires rest == pend - Elems(ss)
      requires forall s :: s in ss && s < |g.slots| && g.slots[s].obj.Obj? ==> g.slots[s].obj.id in reach
      modifies this`flagged, this`marked, this`done, space`mem, space`slots, space`recs
      ensures Going(m0, d0, e, marked, rest, later, reach) && old(marked) <= marked
      decreases Unmarked(), 3
    {
      ghost var m, d := marked, done;
      forall s | s in ss ensures s in pend { assert s in Elems(ss); }
      MarkSlots(ss, reach);
      GrownStep(g, m0, d0, m, d, e, pend, later, Elems(ss), marked, done);
    }

    /** mark_object on a buffer's name.  If that is nil, nothing that nil leads to is a killed buffer, so this one
        is not met again before it is marked. */
    method MarkName(id: nat, ghost m0: set<nat>, ghost d0: set<nat>, ghost e: set<nat>, ghost p: nat,
                    ghost reach: set<nat>)
      requires Going(m0, d0, e, marked, {p}, {}, reach) && id in reach && id < |objs| && objs[id].Buffer?
      requires id !in marked
      modifies this`flagged, this`marked, this`done, space`mem, space`slots, space`recs
      ensures Going(m0, d0, e, marked, {p}, {}, reach) && old(marked) <= marked && id !in marked
      ensures Killed(g, id) ==> g.nil in marked
      decreases Unmarked(), 0, 2
    {
      hide Grown, Tracks, Bits, Closed, DoneOk, StringsKnown, ClosedUnder, WellFormed;
      NameOf(g, done, marked, id, reach);
      var obj := Peek(objs[id].name);
      if obj.Obj? {
        var b := IsMarked(nil);
        if !b {
          MarkNil(id, m0, d0, e, p, reach);
        }
      }
    }

    /** nil, met in the name of a killed buffer. */
    method MarkNil(ghost id: nat, ghost m0: set<nat>, ghost d0: set<nat>, ghost e: set<nat>, ghost p: nat,
                   ghost reach: set<nat>)
      requires Going(m0, d0, e, marked, {p}, {}, reach) && g.nil in reach && Killed(g, id) && id !in marked
      requires g.nil !in marked
      modifies this`flagged, this`marked, this`done, space`mem, space`slots, space`recs
      ensures Going(m0, d0, e, marked, {p}, {}, reach) && old(marked) <= marked && id !in marked && g.nil in marked
      decreases Unmarked(), 0, 1
    {
      hide Grown, Tracks, Bits, Closed, DoneOk, StringsKnown, ClosedUnder;
      ghost var m, d := marked, done;
      ghost var inside := nilReach * reach;
      BothClosed(g, nilReach, reach);
      GrownLater(g, m, d, {g.nil});
      MarkSymbol(nil, m, d, {}, {}, {g.nil}, 0, inside);
      var next := objs[nil].next;
      if next.Some? {
        MarkOn(0, Obj(next.value), m, d, {}, {}, {next.value}, inside);
      }
      GrownStep(g, m0, d0, m, d, e, {p}, {}, {}, marked, done);
      assert {p} - {} == {p};
    }

    /** mark_buffer up to the mark bit: the name is gone through before the buffer is marked. */
    method MarkBufferName(id: nat, ghost m0: set<nat>, ghost d0: set<nat>, ghost e: set<nat>, ghost p: nat,
                          ghost reach: set<nat>)
      requires Going(m0, d0, e, marked, {p}, {}, reach) && id in reach && g.slots[p].obj == Obj(id)
      requires id < |objs| && objs[id].Buffer? && id !in marked
      modifies this`flagged, this`marked, this`done, space`mem, space`slots, space`recs
      ensures Going(m0, d0, e, marked, Elems(objs[id].fields), {}, reach)
      ensures old(marked) + {id} <= marked
      decreases Unmarked(), 0, 3
    {
      MarkName(id, m0, d0, e, p, reach);
      ThreadName(id, m0, d0, e, p, reach);
    }

    /** The slot of the name, and the mark bit in it. */
    method ThreadName(id: nat, ghost m0: set<nat>, ghost d0: set<nat>, ghost e: set<nat>, ghost p: nat,
                      ghost reach: set<nat>)
      requires Going(m0, d0, e, marked, {p}, {}, reach) && id in reach && g.slots[p].obj == Obj(id)
      requires id < |objs| && objs[id].Buffer? && id !in marked && (Killed(g, id) ==> g.nil in marked)
      modifies this`flagged, this`marked, this`done, space`mem, space`slots, space`recs
      ensures Going(m0, d0, e, marked, Elems(objs[id].fields), {}, reach)
      ensures marked == old(marked) + {id}
    {
      hide Bits, Tracks, Closed, StringsKnown, WellFormed, Grown, DoneOk, ClosedUnder, RootBits, Killed, NilClear;
      GrownBuffer(g, m0, d0, marked, done, e, p, id);
      var name := objs[id].name;
      var obj := Peek(name);
      if obj.Obj? {
        Skip(name);
      } else {
        MarkLeaf(name);
      }
      SetMark(id);
      Skip(p);
    }

    /** mark_buffer: the name first, then the mark bit in its slot, then the other fields. */
    method MarkBuffer(id: nat, ghost m0: set<nat>, ghost d0: set<nat>, ghost e: set<nat>, ghost p: nat,
                      ghost reach: set<nat>)
      requires Going(m0, d0, e, marked, {p}, {}, reach) && id in reach && g.slots[p].obj == Obj(id)
      requires id < |objs| && objs[id].Buffer? && id !in marked
      modifies this`flagged, this`marked, this`done, space`mem, space`slots, space`recs
      ensures Going(m0, d0, e, marked, {}, {}, reach) && old(marked) <= marked
      decreases Unmarked(), 0, 4
    {
      MarkBufferName(id, m0, d0, e, p, reach);
      var fields := objs[id].fields;
      BufferFields(g, id, reach);
      Descend(fields, m0, d0, e, Elems(fields), {}, reach, {});
    }

    /** The type bits of a slot say integer; those of a threaded slot are bits of an address or of
        a size, and may. */
    predicate LooksLikeInt(s: nat)
      requires s < |space.slots|
      reads space
    {
      space.slots[s].obj.Atom? || space.slots[s].obj.Chain?
    }

    /** The cons case: mark the cell, deal with one of its two slots, leave the other to the loop. */
    method MarkCons(id: nat, ghost m0: set<nat>, ghost d0: set<nat>, ghost e: set<nat>, ghost p: nat,
                    ghost reach: set<nat>)
        returns (ptr: nat, obj: Object)
      requires Going(m0, d0, e, marked, {p}, {}, reach) && id in reach && g.slots[p].obj == Obj(id)
      requires id < |objs| && objs[id].Cons? && id !in marked
      modifies this`flagged, this`marked, this`done, space`mem, space`slots, space`recs
      ensures Going(m0, d0, e, marked, {ptr}, {}, reach)
      ensures old(marked) + {id} <= marked
      ensures obj == g.slots[ptr].obj && !obj.Chain?
      ensures obj.Obj? ==> obj.id in reach
      decreases Unmarked(), 0, 0
    {
      hide Grown, Tracks, Bits, Closed, StringsKnown, WellFormed, DoneOk, ClosedUnder;
      ConsSlots(g, id, reach);
      ghost var m := marked;
      SetMark(id);
      Entered(id, m, m0, d0, e, {p}, {}, reach, p);
      ptr, obj := MarkConsSlots(id, m0, d0, e, reach);
    }

    method MarkConsSlots(id: nat, ghost m0: set<nat>, ghost d0: set<nat>, ghost e: set<nat>, ghost reach: set<nat>)
        returns (ptr: nat, obj: Object)
      requires id in reach && id < |objs| && objs[id].Cons?
      requires Going(m0, d0, e, marked, {objs[id].car, objs[id].cdr}, {}, reach)
      modifies this`flagged, this`marked, this`done, space`mem, space`slots, space`recs
      ensures Going(m0, d0, e, marked, {ptr}, {}, reach)
      ensures old(marked) <= marked
      ensures obj == g.slots[ptr].obj && !obj.Chain?
      ensures obj.Obj? ==> obj.id in reach
      decreases Unmarked(), 4
    {
      hide Grown, Tracks, Bits, Closed, StringsKnown, WellFormed, DoneOk, ClosedUnder;
      var car, cdr := objs[id].car, objs[id].cdr;
      ConsSlots(g, id, reach);
      var tail := Peek(cdr);
      var flat := IsIntNil(tail);
      if tail == Obj(nil) {
        Settle(m0, d0, e, {car, cdr}, {}, reach, cdr, {car});
        ptr := car;
      } else if flat {
        Descend([cdr], m0, d0, e, {car, cdr}, {}, reach, {car});
        ptr := car;
      } else {
        Descend([car], m0, d0, e, {car, cdr}, {}, reach, {cdr});
        ptr := cdr;
      }
      obj := Peek(ptr);
    }

    /** Is the object a cons (INTEGER . nil), as far as its slots still tell? */
    method IsIntNil(o: Object) returns (b: bool)
      requires Inv() && (o.Obj? ==> o.id < |objs|)
    {
      b := false;
      if o.Obj? && objs[o.id].Cons? {
        var car, cdr := objs[o.id].car, objs[o.id].cdr;
        assert Owned(g, o.id) && Traced(objs[o.id])[0] == car && Traced(objs[o.id])[1] == cdr;
        b := LooksLikeInt(car) && space.slots[cdr].obj == Obj(nil);
      }
    }

    /** The symbol case: mark it, go through its four slots; its successor is left to the loop. */
    method MarkSymbol(id: nat, ghost m0: set<nat>, ghost d0: set<nat>, ghost e: set<nat>, ghost pend: set<nat>,
                      ghost later: set<nat>, ghost p: nat, ghost reach: set<nat>)
      requires Going(m0, d0, e, marked, pend, later, reach) && id in reach && pend <= {p} && later <= {id}
      requires p in pend ==> g.slots[p].obj == Obj(id)
      requires objs[id].Symbol? && id !in marked
      modifies this`flagged, this`marked, this`done, space`mem, space`slots, space`recs
      ensures Going(m0, d0, e, marked, {}, NextOf(objs[id]), reach)
      ensures old(marked) + {id} <= marked
      decreases Unmarked(), 0, 0
    {
      ghost var m := marked;
      SetMark(id);
      Entered(id, m, m0, d0, e, pend, later, reach, p);
      assert Owned(g, id);
      var Symbol(name, value, function_, plist, _) := objs[id];
      Descend([name, value, function_, plist], m0, d0, e, Elems(Traced(objs[id])), NextOf(objs[id]), reach, {});
    }

    /** The vector case. */
    method MarkVector(id: nat, ghost m0: set<nat>, ghost d0: set<nat>, ghost e: set<nat>, ghost p: nat,
                      ghost reach: set<nat>)
      requires Going(m0, d0, e, marked, {p}, {}, reach) && id in reach && g.slots[p].obj == Obj(id)
      requires objs[id].Vector? && id !in marked
      modifies this`flagged, this`marked, this`done, space`mem, space`slots, space`recs
      ensures Going(m0, d0, e, marked, {}, {}, reach) && old(marked) <= marked
      decreases Unmarked(), 0, 0
    {
      hide Grown, Tracks, Bits, Closed, DoneOk, StringsKnown;
      ghost var m := marked;
      SetMark(id);
      Entered(id, m, m0, d0, e, {p}, {}, reach, p);
      assert Owned(g, id);
      Descend(objs[id].elems, m0, d0, e, Elems(objs[id].elems), {}, reach, {});
    }

    /** Mark the object slot `ptr0` refers to and everything it leads to. */
    method MarkObject(ptr0: nat, ghost reach: set<nat>)
      requires Inv() && DoneOk(g, done, marked) && ClosedUnder(g, reach)
      requires ptr0 < |g.slots| && ptr0 !in done && (g.owner[ptr0].Some? ==> g.owner[ptr0].value in marked)
      requires g.slots[ptr0].obj.Obj? ==> g.slots[ptr0].obj.id in reach
      modifies this`flagged, this`marked, this`done, space`mem, space`slots, space`recs
      ensures Inv() && DoneOk(g, done, marked)
      ensures Grown(g, old(marked), old(done), marked, done, {ptr0}, {}, {})
      ensures marked <= old(marked) + reach
      decreases Unmarked(), 1
    {
      GrownStart(g, marked, done, {ptr0});
      MarkOn(ptr0, space.slots[ptr0].obj, marked, done, {ptr0}, {ptr0}, {}, reach);
    }

    /** The loop of mark_object. */
    method MarkOn(ptr0: nat, obj0: Object, ghost m0: set<nat>, ghost d0: set<nat>, ghost e: set<nat>,
                  ghost pend0: set<nat>, ghost later0: set<nat>, ghost reach: set<nat>)
      requires Going(m0, d0, e, marked, pend0, later0, reach) && At(ptr0, obj0, pend0, later0, reach)
      modifies this`flagged, this`marked, this`done, space`mem, space`slots, space`recs
      ensures Going(m0, d0, e, marked, {}, {}, reach) && old(marked) <= marked
      decreases Unmarked(), 0, 7
    {
      hide Grown, Tracks, Closed, DoneOk, StringsKnown, ClosedUnder, NilClear, WellFormed;
      var more, ptr, obj := true, ptr0, obj0;
      ghost var pend, later := pend0, later0;
      while more
        invariant Going(m0, d0, e, marked, pend, later, reach) && old(marked) <= marked
        invariant if more then At(ptr, obj, pend, later, reach) else pend == {} && later == {}
        decreases Unmarked(), more
      {
        more, ptr, obj, pend, later := MarkStep(ptr, obj, m0, d0, e, pend, later, reach);
      }
    }

    /** The loop is about to look at `obj`: what slot `ptr` refers to, or a symbol's successor. */
    ghost predicate At(ptr: nat, obj: Object, pend: set<nat>, later: set<nat>, reach: set<nat>)
      reads this
    {
      && !obj.Chain?
      && (obj.Obj? ==> obj.id in reach && obj.id < |objs|)
      && if later == {} then pend == {ptr} && ptr < |g.slots| && obj == g.slots[ptr].obj
         else pend == {} && obj.Obj? && later == {obj.id} && objs[obj.id].Symbol?
    }

    /** One round of the loop in mark_object; `more` says that it goes on. */
    method MarkStep(ptr0: nat, obj0: Object, ghost m0: set<nat>, ghost d0: set<nat>, ghost e: set<nat>,
                    ghost pend0: set<nat>, ghost later0: set<nat>, ghost reach: set<nat>)
        returns (more: bool, ptr: nat, obj: Object, ghost pend: set<nat>, ghost later: set<nat>)
      requires Going(m0, d0, e, marked, pend0, later0, reach) && At(ptr0, obj0, pend0, later0, reach)
      modifies this`flagged, this`marked, this`done, space`mem, space`slots, space`recs
      ensures Going(m0, d0, e, marked, pend, later, reach) && old(marked) <= marked
      ensures if more then At(ptr, obj, pend, later, reach) else pend == {} && later == {}
      ensures more ==> marked != old(marked)
      decreases Unmarked(), 0, 6
    {
      hide Grown, Tracks, Bits, Closed, DoneOk, StringsKnown;
      more, ptr, obj, pend, later := false, ptr0, obj0, {}, {};
      if !obj.Obj? {
        FinishLeaf(ptr, m0, d0, e, reach);
      } else if objs[obj.id].Marker? || objs[obj.id].LargeString? {
        MarkOnly(obj.id, m0, d0, e, ptr, reach);
      } else {
        var b := IsMarked(obj.id);
        if b {
          Settle(m0, d0, e, pend0, later0, reach, ptr, {});
        } else {
          more, ptr, obj, pend, later := MarkUnmarked(ptr, obj.id, m0, d0, e, pend0, later0, reach);
        }
      }
    }

    method MarkUnmarked(ptr0: nat, id: nat, ghost m0: set<nat>, ghost d0: set<nat>, ghost e: set<nat>,
                        ghost pend0: set<nat>, ghost later0: set<nat>, ghost reach: set<nat>)
        returns (more: bool, ptr: nat, obj: Object, ghost pend: set<nat>, ghost later: set<nat>)
      requires Going(m0, d0, e, marked, pend0, later0, reach) && At(ptr0, Obj(id), pend0, later0, reach)
      requires id !in marked && !objs[id].Marker? && !objs[id].LargeString?
      modifies this`flagged, this`marked, this`done, space`mem, space`slots, space`recs
      ensures Going(m0, d0, e, marked, pend, later, reach) && old(marked) <= marked
      ensures if more then At(ptr, obj, pend, later, reach) else pend == {} && later == {}
      ensures more ==> marked != old(marked)
      decreases Unmarked(), 0, 5
    {
      hide Grown, Tracks, Bits, Closed, DoneOk, StringsKnown;
      more, ptr, obj, pend, later := false, ptr0, Obj(id), {}, {};
      match objs[id] {
        case Cons(_, _) =>
          ptr, obj := MarkCons(id, m0, d0, e, ptr0, reach);
          more, pend := true, {ptr};
        case Symbol(_, _, _, _, next) =>
          MarkSymbol(id, m0, d0, e, pend0, later0, ptr0, reach);
          if next.Some? {
            more, obj, later := true, Obj(next.value), {next.value};
          }
        case Vector(_) =>
          MarkVector(id, m0, d0, e, ptr0, reach);
        case Buffer(_, _) =>
          MarkBuffer(id, m0, d0, e, ptr0, reach);
      }
    }

    /** The loop ends at a slot that refers to no object. */
    method FinishLeaf(ptr: nat, ghost m0: set<nat>, ghost d0: set<nat>, ghost e: set<nat>, ghost reach: set<nat>)
      requires Going(m0, d0, e, marked, {ptr}, {}, reach) && !g.slots[ptr].obj.Obj?
      modifies space`mem, space`slots, space`recs, this`done
      ensures Going(m0, d0, e, marked, {}, {}, reach)
    {
      GrownSettle(g, m0, d0, marked, done, e, {ptr}, {}, {ptr});
      MarkLeaf(ptr);
      assert {ptr} - {ptr} == {};
    }
  }

  /** Entering a buffer whose name, met first, leads nowhere. */
  lemma GrownBuffer(g: Graph, m0: set<nat>, d0: set<nat>, m: set<nat>, d: set<nat>, e: set<nat>, p: nat, id: nat)
    requires WellFormed(g) && id < |g.objs| && id !in m && DoneOk(g, d0, m0) && DoneOk(g, d, m) && g.objs[id].Buffer?
    requires Grown(g, m0, d0, m, d, e, {p}, {})
    requires forall s :: s in e && s < |g.slots| && g.owner[s].Some? ==> g.owner[s].value in m0
    requires p < |g.slots| && g.slots[p].obj == Obj(id) && (Killed(g, id) ==> g.nil in m)
    ensures var name := g.objs[id].name;
            && name < |g.slots| && name !in d && name != p && (g.slots[name].obj.Obj? ==> g.slots[name].obj.id in m)
            && Grown(g, m0, d0, m + {id}, d + {name} + {p}, e, Elems(g.objs[id].fields), {})
    ensures forall s :: s in g.objs[id].fields || s == g.objs[id].name ==> s < |g.slots| && g.owner[s] == Some(id)
    ensures p < |g.owner| && (g.owner[p].Some? ==> g.owner[p].value in m) ==>
              DoneOk(g, d + {g.objs[id].name} + {p}, m + {id})
  {
    var all := Traced(g.objs[id]);
    assert Owned(g, id) && all[0] == g.objs[id].name && all[1..] == g.objs[id].fields;
    GrownEnter(g, m0, d0, m, d, e, {p}, {}, id);
    GrownSettle(g, m0, d0, m + {id}, d + {p}, e, Elems(all), {}, {all[0]});
    DistinctTail(all);
    assert d + {p} + {all[0]} == d + {all[0]} + {p};
    forall s | s in g.objs[id].fields || s == g.objs[id].name ensures s in all { }
  }

  /** A buffer's name is not gone through before the buffer is marked; if it is nil, nil is in reach. */
  lemma NameOf(g: Graph, d: set<nat>, m: set<nat>, id: nat, reach: set<nat>)
    requires WellFormed(g) && DoneOk(g, d, m) && ClosedUnder(g, reach) && id in reach && g.objs[id].Buffer? && id !in m
    ensures var name := g.objs[id].name;
            && name < |g.slots| && name !in d && (Killed(g, id) <==> g.slots[name].obj.Obj?)
            && (g.slots[name].obj.Obj? ==> g.slots[name].obj.id == g.nil && g.nil in reach)
    ensures g.nil < |g.objs|
  {
    assert Owned(g, id) && Traced(g.objs[id])[0] == g.objs[id].name;
    assert g.objs[id].name in Traced(g.objs[id]);
  }

  lemma GrownLater(g: Graph, m: set<nat>, d: set<nat>, later: set<nat>)
    ensures Grown(g, m, d, m, d, {}, {}, later)
  {
  }

  lemma ConsSlots(g: Graph, id: nat, reach: set<nat>)
    requires WellFormed(g) && ClosedUnder(g, reach) && id in reach && g.objs[id].Cons?
    ensures var Cons(car, cdr) := g.objs[id];
            && car < |g.slots| && cdr < |g.slots| && car != cdr
            && Traced(g.objs[id]) == [car, cdr] && Elems([car, cdr]) == {car, cdr}
            && Elems([car]) == {car} && Elems([cdr]) == {cdr}
            && {car, cdr} - {car} == {cdr} && {car, cdr} - {cdr} == {car}
            && IsCdr(g, cdr)
            && (forall s :: s in {car, cdr} && g.slots[s].obj.Obj? ==>
                  g.slots[s].obj.id in reach && g.slots[s].obj.id < |g.objs|)
  {
    var Cons(car, cdr) := g.objs[id];
    assert Owned(g, id) && Traced(g.objs[id])[0] == car && Traced(g.objs[id])[1] == cdr;
    assert car in Traced(g.objs[id]) && cdr in Traced(g.objs[id]);
  }

  lemma BufferFields(g: Graph, id: nat, reach: set<nat>)
    requires WellFormed(g) && ClosedUnder(g, reach) && id in reach && g.objs[id].Buffer?
    ensures Distinct(g.objs[id].fields)
    ensures forall s :: s in g.objs[id].fields && s < |g.slots| && g.slots[s].obj.Obj? ==> g.slots[s].obj.id in reach
  {
    assert Owned(g, id) && Traced(g.objs[id])[1..] == g.objs[id].fields;
    DistinctTail(Traced(g.objs[id]));
    forall s | s in g.objs[id].fields ensures s in Traced(g.objs[id]) { }
  }

  lemma DistinctTail(s: seq<nat>)
    requires Distinct(s) && s != []
    ensures Distinct(s[1..]) && Elems(s) - {s[0]} == Elems(s[1..])
  {
  }
}
