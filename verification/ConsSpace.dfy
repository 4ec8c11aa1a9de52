/** Cons cells: blocks of cells, the free list threaded through their cars, and the sweep. */
module ConsSpace {
  import opened Common

  /** Cells in a block of just under 1016 bytes, with 4-byte pointers and 8-byte cells. */
  const BLOCK := 126

  /** What is in a car: a value with its mark bit, or a link of the free list. */
  datatype Car = Value(v: int, marked: bool) | Link(next: Option<nat>)
  datatype Cell = Cell(car: Car, cdr: int)

  /** The free list starting at `head` is `free`, in order. */
  ghost predicate Chain(cells: seq<Cell>, head: Option<nat>, free: seq<nat>)
    decreases |free|
  {
    if free == [] then head == None
    else
      && head == Some(free[0]) && free[0] < |cells| && cells[free[0]].car.Link?
      && Chain(cells, cells[free[0]].car.next, free[1..])
  }

  /** The cells before `n` that are not on the free list. */
  ghost function Live(free: seq<nat>, n: nat): (r: set<nat>) {
    set p: nat | p < n && p !in free
  }

  /** Every cell handed out is in use or on the free list, and not both. */
  lemma {:induction false} Account(free: seq<nat>, n: nat)
    requires Distinct(free) && forall q :: q in free ==> q < n
    ensures |Live(free, n)| + |free| == n
    decreases |free|
  {
    if free == [] {
      Below(n);
    } else {
      var rest := free[1..];
      assert forall q :: q in rest ==> q in free;
      assert free == [free[0]] + rest;
      Account(rest, n);
      assert Live(rest, n) == Live(free, n) + {free[0]};
    }
  }

  lemma {:induction false} Below(n: nat)
    ensures |Live([], n)| == n
  {
    if n > 0 {
      Below(n - 1);
      assert Live([], n) == Live([], n - 1) + {n - 1};
    } else {
      assert Live([], n) == {};
    }
  }

  lemma {:induction false} ChainKeeps(cells: seq<Cell>, head: Option<nat>, free: seq<nat>, p: nat, c: Cell)
    requires Chain(cells, head, free) && p !in free && p < |cells|
    ensures Chain(cells[p := c], head, free)
    decreases |free|
  {
    if free != [] {
      ChainKeeps(cells, cells[free[0]].car.next, free[1..], p, c);
    }
  }

  lemma ChainPush(cells: seq<Cell>, head: Option<nat>, free: seq<nat>, p: nat, c: Cell)
    requires Chain(cells, head, free) && Distinct(free) && p !in free && p < |cells| && c.car == Link(head)
    ensures Chain(cells[p := c], Some(p), [p] + free) && Distinct([p] + free)
  {
    ChainKeeps(cells, head, free, p, c);
    assert ([p] + free)[1..] == free;
  }

  lemma {:induction false} ChainLinks(cells: seq<Cell>, head: Option<nat>, free: seq<nat>)
    requires Chain(cells, head, free)
    ensures forall q :: q in free ==> q < |cells| && cells[q].car.Link?
    decreases |free|
  {
    if free != [] {
      ChainLinks(cells, cells[free[0]].car.next, free[1..]);
      assert free == [free[0]] + free[1..];
    }
  }

  ghost predicate Interval(s: set<nat>, lo: nat, hi: nat) {
    forall q: nat :: q in s <==> lo <= q < hi
  }

  class Conses {
    var cells: seq<Cell>               // all blocks, oldest first
    var consBlock: nat                // the latest block
    var consBlockIndex: nat          // its cells handed out
    var consFreeList: Option<nat>
    var totalConses: nat
    var totalFreeConses: nat
    ghost var free: seq<nat>

    /** The cells handed out so far. */
    ghost function Issued(): nat
      reads this
    {
      consBlock * BLOCK + consBlockIndex
    }

    ghost predicate Valid()
      reads this
    {
      && |cells| == (consBlock + 1) * BLOCK && consBlockIndex <= BLOCK
      && Chain(cells, consFreeList, free) && Distinct(free)
      && (forall q :: q in free ==> q < Issued())
      && forall p :: p in Live(free, Issued()) ==> cells[p].car.Value?
    }

    /** No cell is marked: no collection is going on. */
    ghost predicate Unmarked()
      requires Valid()
      reads this
    {
      forall p :: p in Live(free, Issued()) ==> !cells[p].car.marked
    }

    ghost function InUse(): set<nat>
      reads this
    {
      Live(free, Issued())
    }

    /** init_cons. */
    constructor ()
      ensures Valid() && Unmarked() && InUse() == {} && free == []
    {
      cells := seq(BLOCK, i => Cell(Value(0, false), 0));
      consBlock, consBlockIndex, consFreeList := 0, 0, None;
      totalConses, totalFreeConses, free := 0, 0, [];
    }

    /** free_cons. */
    method FreeCons(p: nat)
      requires Valid() && p in InUse()
      modifies this
      ensures Valid() && InUse() == old(InUse()) - {p} && Issued() == old(Issued())
      ensures forall q :: q in InUse() ==> cells[q] == old(cells[q])
      ensures consFreeList == Some(p) && free == [p] + old(free)
      ensures cells[p] == old(cells[p]).(car := Link(old(consFreeList)))
    {
      ChainPush(cells, consFreeList, free, p, cells[p].(car := Link(consFreeList)));
      cells := cells[p := cells[p].(car := Link(consFreeList))];
      consFreeList := Some(p);
      free := [p] + free;
    }

    /** cons.  The cell was not in use; every cell in use stays as it was. */
    method Cons(car: int, cdr: int) returns (p: nat)
      requires Valid()
      modifies this
      ensures Valid() && p !in old(InUse()) && InUse() == old(InUse()) + {p}
      ensures cells[p] == Cell(Value(car, false), cdr)
      ensures forall q :: q in old(InUse()) ==> cells[q] == old(cells[q])
      ensures if old(free) == [] then p == old(Issued()) && Issued() == p + 1
              else p == old(free)[0] && free == old(free)[1..] && Issued() == old(Issued())
    {
      if consFreeList.Some? {
        p := TakeFree();
      } else {
        p := TakeNew();
      }
      ChainKeeps(cells, consFreeList, free, p, Cell(Value(car, false), cdr));
      cells := cells[p := Cell(Value(car, false), cdr)];
    }

    /** The first cell of the free list. */
    method TakeFree() returns (p: nat)
      requires Valid() && consFreeList.Some?
      modifies this
      ensures cells == old(cells) && consBlock == old(consBlock) && consBlockIndex == old(consBlockIndex)
      ensures Chain(cells, consFreeList, free) && Distinct(free) && (forall q :: q in free ==> q < Issued())
      ensures p !in old(InUse()) && p !in free && InUse() == old(InUse()) + {p} && p < |cells|
      ensures old(free) == [p] + free
    {
      p := consFreeList.value;
      consFreeList := cells[p].car.next;
      free := free[1..];
      assert p in old(free) && forall q :: q in free ==> q in old(free);
      assert old(free) == [p] + free;
    }

    /** The next cell of the latest block, or of a new one. */
    method TakeNew() returns (p: nat)
      requires Valid() && consFreeList.None?
      modifies this
      ensures |cells| == (consBlock + 1) * BLOCK && consBlockIndex <= BLOCK && free == [] && consFreeList == None
      ensures p == old(Issued()) < |cells| && Issued() == p + 1 && InUse() == old(InUse()) + {p}
      ensures forall q :: q in old(InUse()) ==> q < |cells| && cells[q] == old(cells[q])
    {
      if consBlockIndex == BLOCK {
        cells := cells + seq(BLOCK, i => Cell(Value(0, false), 0));
        consBlock := consBlock + 1;
        consBlockIndex := 0;
      }
      p := consBlock * BLOCK + consBlockIndex;
      consBlockIndex := consBlockIndex + 1;
    }

    /** mark_object, of a cell in use. */
    method Mark(p: nat)
      requires Valid() && p in InUse()
      modifies this`cells
      ensures Valid() && InUse() == old(InUse()) && cells[p] == old(cells[p].(car := cells[p].car.(marked := true)))
      ensures forall q :: q in InUse() && q != p ==> cells[q] == old(cells[q])
    {
      var c := cells[p].(car := cells[p].car.(marked := true));
      ChainKeeps(cells, consFreeList, free, p, c);
      cells := cells[p := c];
    }

    /** The cells in use that are marked. */
    ghost function Marked(): set<nat>
      requires Valid()
      reads this
    {
      set p | p in InUse() && cells[p].car.marked
    }

    lemma MarkedCells()
      requires Valid()
      ensures forall p :: 0 <= p < Issued() ==> (p in Marked() <==> cells[p].car.Value? && cells[p].car.marked)
    {
      ChainLinks(cells, consFreeList, free);
    }

    /** How far the sweep has come: the cells of `done` are free, or unmarked and as they were otherwise;
        the others are as they were. */
    ghost predicate Sweeping(start: seq<Cell>, marked: set<nat>, done: set<nat>)
      reads this
    {
      && |cells| == |start|
      && Chain(cells, consFreeList, free) && Distinct(free)
      && (forall q :: q in free <==> q in done && q !in marked)
      && (forall q :: q in done && q in marked ==>
            q < |start| && start[q].car.Value? && cells[q] == start[q].(car := start[q].car.(marked := false)))
      && (forall q :: 0 <= q < |start| && q !in done ==> cells[q] == start[q])
    }

    /** The body of gc_sweep's loop over cons cells. */
    method SweepCell(p: nat, ghost start: seq<Cell>, ghost marked: set<nat>, ghost done: set<nat>)
      requires Sweeping(start, marked, done) && p < |start| && p !in done
      requires p in marked <==> start[p].car.Value? && start[p].car.marked
      modifies this`cells, this`consFreeList, this`free, this`totalConses, this`totalFreeConses
      ensures Sweeping(start, marked, done + {p})
      ensures totalConses == old(totalConses) + (if p in marked then 1 else 0)
      ensures totalFreeConses == old(totalFreeConses) + (if p in marked then 0 else 1)
      ensures |free| == |old(free)| + (if p in marked then 0 else 1)
    {
      if cells[p].car.Value? && cells[p].car.marked {
        var c := cells[p].(car := cells[p].car.(marked := false));
        ChainKeeps(cells, consFreeList, free, p, c);
        cells := cells[p := c];
        totalConses := totalConses + 1;
      } else {
        var c := cells[p].(car := Link(consFreeList));
        ChainPush(cells, consFreeList, free, p, c);
        cells := cells[p := c];
        consFreeList := Some(p);
        totalFreeConses := totalFreeConses + 1;
        free := [p] + free;
      }
    }

    /** One block: the cells from `base` up to `base + lim`; those after them have been swept. */
    method SweepBlock(base: nat, lim: nat, ghost start: seq<Cell>, ghost marked: set<nat>, ghost done0: set<nat>,
                      ghost n: nat)
        returns (ghost done: set<nat>)
      requires Sweeping(start, marked, done0) && Interval(done0, base + lim, n) && base + lim <= n <= |start|
      requires forall p :: 0 <= p < n ==> (p in marked <==> start[p].car.Value? && start[p].car.marked)
      requires totalConses + totalFreeConses == |done0| && totalFreeConses == |free|
      modifies this`cells, this`consFreeList, this`free, this`totalConses, this`totalFreeConses
      ensures Sweeping(start, marked, done) && Interval(done, base, n)
      ensures totalConses + totalFreeConses == |done| && totalFreeConses == |free|
    {
      hide Chain, Distinct, Conses.Sweeping;
      done := done0;
      for i := 0 to lim
        invariant Sweeping(start, marked, done)
        invariant forall q :: q in done <==> q in done0 || base <= q < base + i
        invariant totalConses + totalFreeConses == |done| && totalFreeConses == |free|
      {
        SweepCell(base + i, start, marked, done);
        done := done + {base + i};
      }
    }

    /** The cons part of gc_sweep: the latest block first, and in it only the cells handed out.  The free
        list is then exactly the cells that were not marked, the marks are gone, the marked cells are
        otherwise as they were, and the totals account for every cell handed out. */
    method Sweep()
      requires Valid()
      modifies this
      ensures Valid() && Unmarked() && Issued() == old(Issued())
      ensures InUse() == old(Marked())
      ensures forall q :: q in InUse() ==> cells[q] == old(cells[q].(car := cells[q].car.(marked := false)))
      ensures totalConses == |InUse()| && totalFreeConses == |free| && totalConses + totalFreeConses == Issued()
    {
      ghost var start, marked, n := cells, Marked(), Issued();
      ghost var done: set<nat> := {};
      MarkedCells();
      consFreeList, free := None, [];
      totalConses, totalFreeConses := 0, 0;
      var cblk, lim := consBlock + 1, consBlockIndex;
      while cblk > 0
        invariant 0 <= cblk <= consBlock + 1 && consBlock == old(consBlock) && consBlockIndex == old(consBlockIndex)
        invariant lim == (if cblk == consBlock + 1 then consBlockIndex else BLOCK)
        invariant Sweeping(start, marked, done) && Interval(done, if cblk == consBlock + 1 then n else cblk * BLOCK, n)
        invariant totalConses + totalFreeConses == |done| && totalFreeConses == |free|
      {
        cblk := cblk - 1;
        done := SweepBlock(cblk * BLOCK, lim, start, marked, done, n);
        lim := BLOCK;
      }
      assert done == Live([], n);
      Below(n);
      Account(free, n);
      assert InUse() == marked;
    }
  }
}
