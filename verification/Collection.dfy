/** A whole collection of the conses: the marks that mark_object leaves in their cars, and the sweep that
    goes by them. */
module Collection {
  import opened Common
  import opened StringSpace
  import opened Marking
  import ConsSpace

  /** The cell of each cons.  The slots of a cons object are its cell's car and cdr, seen as slots; every
      cell in use is the cell of one cons, and of no other. */
  ghost predicate CellsOf(objs: seq<Shape>, inUse: set<nat>, cells: map<nat, nat>) {
    && (forall id: nat :: id in cells <==> id < |objs| && objs[id].Cons?)
    && (forall id, other :: id in cells && other in cells && id != other ==> cells[id] != cells[other])
    && (forall id :: id in cells ==> cells[id] in inUse)
    && (forall p :: p in inUse ==> exists id :: id in cells && cells[id] == p)
  }

  ghost function CellsOfThose(cells: map<nat, nat>, ids: set<nat>): set<nat> {
    set id | id in cells && id in ids :: cells[id]
  }

  /** The mark bit of a cons is the one in its car. */
  lemma CarBit(g: Graph, slots: seq<Slot>, flagged: set<nat>, marked: set<nat>, id: nat)
    requires WellFormed(g) && |slots| == |g.slots| && Bits(g, slots, flagged, marked)
    requires id < |g.objs| && g.objs[id].Cons?
    ensures g.objs[id].car < |slots| && (slots[g.objs[id].car].marked <==> id in marked)
  {
    assert Owned(g, id) && (id in marked <==> Bit(g.objs[id], id, slots, flagged));
  }

  ghost predicate MarkIs(cs: seq<ConsSpace.Cell>, p: nat, b: bool) {
    p < |cs| && cs[p].car.Value? && (cs[p].car.marked <==> b)
  }

  /** A cell holds what it held, whatever its mark. */
  ghost predicate HoldsTheSame(cs: seq<ConsSpace.Cell>, before: seq<ConsSpace.Cell>, p: nat) {
    && p < |cs| && p < |before| && cs[p].cdr == before[p].cdr
    && cs[p].car.Value? && before[p].car.Value? && cs[p].car.v == before[p].car.v
  }

  /** The cells' cars are the slots that mark_object has marked.  Where they are one memory in C, they are two
      here, and this brings the cells' marks in step. */
  method ShowMarks(ghost g: Graph, objs: seq<Shape>, slots: seq<Slot>, ghost flagged: set<nat>, ghost marked: set<nat>,
                   conses: ConsSpace.Conses, cells: map<nat, nat>)
    requires WellFormed(g) && objs == g.objs && |slots| == |g.slots| && Bits(g, slots, flagged, marked)
    requires conses.Valid() && conses.Unmarked() && CellsOf(objs, conses.InUse(), cells)
    modifies conses`cells
    ensures conses.Valid() && conses.InUse() == old(conses.InUse())
    ensures forall p :: p in conses.InUse() ==> HoldsTheSame(conses.cells, old(conses.cells), p)
    ensures forall id :: id in cells ==> MarkIs(conses.cells, cells[id], id in marked)
  {
    hide Bits, WellFormed;
    for id: nat := 0 to |objs|
      invariant conses.Valid() && conses.InUse() == old(conses.InUse())
      invariant forall c :: c in cells ==> MarkIs(conses.cells, cells[c], c in marked && c < id)
      invariant forall p :: p in conses.InUse() ==> HoldsTheSame(conses.cells, old(conses.cells), p)
    {
      if objs[id].Cons? {
        CarBit(g, slots, flagged, marked, id);
        if slots[objs[id].car].marked {
          conses.Mark(cells[id]);
        }
      }
    }
  }

  /** The sweep of the conses after `marked` have been marked: those are in use, as they were, and all other
      cells are free. */
  method SweepConses(ghost g: Graph, objs: seq<Shape>, slots: seq<Slot>, ghost flagged: set<nat>,
                     ghost marked: set<nat>,
                     conses: ConsSpace.Conses, cells: map<nat, nat>)
    requires WellFormed(g) && objs == g.objs && |slots| == |g.slots| && Bits(g, slots, flagged, marked)
    requires conses.Valid() && conses.Unmarked() && CellsOf(objs, conses.InUse(), cells)
    modifies conses
    ensures conses.Valid() && conses.Unmarked() && conses.InUse() == CellsOfThose(cells, marked)
    ensures forall p :: p in conses.InUse() ==> HoldsTheSame(conses.cells, old(conses.cells), p)
    ensures |conses.InUse()| + |conses.free| == conses.Issued() == old(conses.Issued())
  {
    hide Bits, WellFormed;
    ghost var before := conses.cells;
    ShowMarks(g, objs, slots, flagged, marked, conses, cells);
    ghost var shown := conses.cells;
    assert conses.Marked() == CellsOfThose(cells, marked);
    conses.Sweep();
    forall p | p in conses.InUse()
      ensures HoldsTheSame(conses.cells, before, p)
    {
      assert HoldsTheSame(shown, before, p);
    }
  }

  lemma InCells(cells: map<nat, nat>, ids: set<nat>)
    requires forall id, other :: id in cells && other in cells && id != other ==> cells[id] != cells[other]
    ensures forall id :: id in cells ==> (cells[id] in CellsOfThose(cells, ids) <==> id in ids)
  {
  }

  /** garbage-collect, as far as conses and strings go: the conses in use afterwards are exactly those that can
      be reached from the roots, with what was in them; the strings are as Marking says; every other cell handed
      out is on the free list. */
  method GarbageCollect(collector: Collector, conses: ConsSpace.Conses, cells: map<nat, nat>,
                        fixed: seq<nat>, pointed: seq<nat>, ghost toNil: seq<nat>)
      returns (stringChars: nat)
    requires collector.Inv() && collector.marked == {} && collector.done == {} && collector.rootMarks == {}
    requires collector.recs0 == collector.space.recs && collector.g.slots == collector.space.slots
    requires Distinct(fixed) && forall s :: s in pointed ==> s !in fixed
    requires forall s :: s in fixed || s in pointed ==> s < |collector.g.slots| && collector.g.owner[s].None?
    requires NilHeld(collector.g, Elems(fixed) + Elems(pointed), toNil)
    requires conses.Valid() && conses.Unmarked() && CellsOf(collector.objs, conses.InUse(), cells)
    modifies collector`flagged, collector`marked, collector`done, collector`rootMarks, collector.space, conses
    ensures conses.Valid() && conses.Unmarked() && collector.space.Valid()
    ensures forall id :: id in cells ==>
              (cells[id] in conses.InUse() <==> Reachable(collector.g, Elems(fixed) + Elems(pointed), id))
    ensures conses.InUse() <= old(conses.InUse())
    ensures forall p :: p in conses.InUse() ==> HoldsTheSame(conses.cells, old(conses.cells), p)
    ensures |conses.InUse()| + |conses.free| == conses.Issued() == old(conses.Issued())
    ensures FieldsFollowed(collector.g, collector.marked, collector.done)
    ensures forall id: nat :: id in collector.marked <==> Reachable(collector.g, Elems(fixed) + Elems(pointed), id)
    ensures |collector.space.slots| == |collector.g.slots|
    ensures StringsFollow(collector.g.slots, old(collector.space.mem), collector.space.slots, collector.space.mem, collector.done)
  {
    hide Reachable, FieldsFollowed, FieldOf, StringsFollow, NilHeld, Bits, Tracks, WellFormed, StringsKnown, RootBits, SlotOf, HoldsTheSame;
    ghost var g, roots := collector.g, Elems(fixed) + Elems(pointed);
    stringChars := collector.Collect(fixed, pointed, toNil);
    SweepConses(g, collector.objs, collector.space.slots, collector.flagged, collector.marked, conses, cells);
    InCells(cells, collector.marked);
    assert forall id: nat :: id in collector.marked <==> Reachable(g, roots, id);
  }
}
