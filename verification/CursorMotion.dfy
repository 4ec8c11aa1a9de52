/** Cursor motion: which way of moving the cursor is cheapest, found by a dry run of the code that then
    does the moving. */
module CursorMotion {
  import opened Common

  const BIG := 9999

  /** The terminal's motions, by the number of characters each takes; None if the terminal lacks it.
      The absolute motions take a number of characters that depends on where they go. */
  datatype Caps = Caps(
    up: Option<nat>, down: Option<nat>, left: Option<nat>, right: Option<nat>,
    home: Option<nat>, cr: Option<nat>, ll: Option<nat>, tab: Option<nat>,
    abs: Option<(nat, nat) -> nat>, habs: Option<nat -> nat>, vabs: Option<nat -> nat>,
    tabwidth: nat, cols: nat, rows: nat, usetabs: bool, autolf: bool)

  datatype Motion = Up | Down | Left | Right | Home | Cr | Ll | Tab
    | Abs(row: nat, col: nat) | Habs(hcol: nat) | Vabs(vrow: nat)

  /** What the code sends for a motion, or None if it has no string for it. */
  function Chars(c: Caps, m: Motion): Option<nat> {
    match m
    case Up => c.up
    case Down => c.down
    case Left => c.left
    case Right => c.right
    case Home => c.home
    case Cr => c.cr
    case Ll => c.ll
    case Tab => c.tab
    case Abs(row, col) => if c.abs.Some? then Some(c.abs.value(row, col)) else None
    case Habs(col) => if c.habs.Some? then Some(c.habs.value(col)) else None
    case Vabs(row) => if c.vabs.Some? then Some(c.vabs.value(row)) else None
  }

  function Cost(o: Option<nat>): nat {
    if o.Some? then o.value else BIG
  }

  function TabCost(c: Caps): nat {
    if c.tabwidth != 0 then Cost(c.tab) else BIG
  }

  ghost predicate Short(o: Option<nat>) {
    o.Some? ==> o.value < BIG
  }

  ghost predicate Sane(c: Caps) {
    && c.rows > 0 && c.cols > 0
    && Short(c.up) && Short(c.down) && Short(c.left) && Short(c.right)
    && Short(c.home) && Short(c.cr) && Short(c.ll) && Short(c.tab)
  }

  ghost predicate OnScreen(c: Caps, row: int, col: int) {
    0 <= row < c.rows && 0 <= col < c.cols
  }

  /** Can the cursor at (row, col) make this motion without leaving the screen?  A tab must find a stop
      before the right edge. */
  ghost predicate Stays(c: Caps, row: int, col: int, m: Motion) {
    match m
    case Up => row > 0
    case Down => row + 1 < c.rows
    case Left => col > 0
    case Right => col + 1 < c.cols
    case Home => true
    case Cr => c.autolf ==> row + 1 < c.rows
    case Ll => true
    case Tab => c.tabwidth > 0 && (col / c.tabwidth + 1) * c.tabwidth < c.cols
    case Abs(r, k) => OnScreen(c, r, k)
    case Habs(k) => k < c.cols
    case Vabs(r) => r < c.rows
  }

  /** Where a motion takes the terminal's cursor. */
  ghost function Moved(c: Caps, row: int, col: int, m: Motion): (int, int) {
    match m
    case Up => (row - 1, col)
    case Down => (row + 1, col)
    case Left => (row, col - 1)
    case Right => (row, col + 1)
    case Home => (0, 0)
    case Cr => (if c.autolf then row + 1 else row, 0)
    case Ll => (c.rows - 1, 0)
    case Tab => if c.tabwidth == 0 then (row, col) else (row, (col / c.tabwidth + 1) * c.tabwidth)
    case Abs(r, k) => (r, k)
    case Habs(k) => (row, k)
    case Vabs(r) => (r, col)
  }

  // ---- the estimate ----

  /** An estimate, and whether there is a way at all. */
  datatype Guess = Guess(cost: int, way: bool)

  const NOWAY := Guess(BIG, false)

  function Steps(o: Option<nat>, n: nat): (g: Guess)
    ensures g.cost >= 0
  {
    if n == 0 then Guess(0, true) else if Cost(o) == BIG then NOWAY else Guess(Cost(o) * n, true)
  }

  function Sideways(c: Caps, from: int, to: int): Guess {
    if to < from then Steps(c.left, from - to) else Steps(c.right, to - from)
  }

  function Quotient(a: nat, w: nat): nat
    requires w > 0
  {
    a / w
  }

  /** Tabs to send first when moving right from `from` to `to`: none, as many as do not go past, or one
      more; and the cost counted for that way of going. */
  datatype Tabbing = Tabbing(n: nat, cost: int)

  function Tabs(c: Caps, from: nat, to: nat): Tabbing
    requires from < to && c.tabwidth > 0
  {
    var w := c.tabwidth;
    var n: nat := Quotient(to - from + from % w, w);
    var x := (from / w + n) * w;
    var short := if n != 0 then n * TabCost(c) + (to - x) * Cost(c.right) else BIG;
    var past := if x + w < c.cols then (n + 1) * TabCost(c) + (x + w - to) * Cost(c.left) else BIG;
    var best := if past < short then Tabbing(n + 1, past) else Tabbing(n, short);
    if best.cost < BIG && best.cost < (to - from) * Cost(c.right) then best else Tabbing(0, 0)
  }

  function Across(c: Caps, from: nat, to: nat): Guess {
    if to <= from || TabCost(c) >= BIG || !c.usetabs then Sideways(c, from, to)
    else
      var t := Tabs(c, from, to);
      var rest := Sideways(c, if t.n == 0 then from else (from / c.tabwidth + t.n) * c.tabwidth, to);
      if rest.way then Guess(t.cost + rest.cost, true) else rest
  }

  /** From (y, x) to (row, col) by up, down, left, right and tab. */
  function Relative(c: Caps, limbo: bool, y: nat, x: nat, row: nat, col: nat): Guess {
    if limbo then NOWAY
    else
      var v := if row < y then Steps(c.up, y - row) else Steps(c.down, row - y);
      if !v.way then NOWAY
      else
        var h := Across(c, x, col);
        if h.way then Guess(v.cost + h.cost, true) else NOWAY
  }

  // ---- the tab arithmetic ----

  lemma Apart(w: int, d: int)
    requires w > 0 && d != 0
    ensures w * d >= w || w * d <= -w
  {
    if d > 0 {
      assert w * d == w + w * (d - 1) && w * (d - 1) >= 0;
    } else {
      assert w * d == -w - w * (-1 - d) && w * (-1 - d) >= 0;
    }
  }

  lemma FloorOf(a: int, w: int, q: int)
    requires w > 0 && q * w <= a < q * w + w
    ensures a / w == q
  {
    var k, r := a / w, a % w;
    assert a == w * k + r;
    assert w * (k - q) == w * k - q * w;
    if k - q != 0 {
      Apart(w, k - q);
      assert false;
    }
  }

  /** The tabs that do not go past `to` end at the last stop up to `to`; one more goes past it. */
  lemma TabStops(w: nat, from: nat, to: nat)
    requires w > 0 && from < to
    ensures var n := (to - from + from % w) / w; var x := (from / w + n) * w;
            0 <= n && x <= to < x + w && (n > 0 ==> x > from)
  {
    var a := to - from + from % w;
    var n := a / w;
    assert a == w * n + a % w && from == w * (from / w) + from % w;
    assert (from / w + n) * w == w * (from / w) + w * n;
    if n > 0 {
      assert w * n >= w;
    }
  }

  /** The k-th tab from column `from` ends at stop from/w + k. */
  lemma NextStop(w: nat, from: nat, k: nat, col: int)
    requires w > 0 && (if k == 0 then col == from else col == (from / w + k) * w)
    ensures (col / w + 1) * w == (from / w + k + 1) * w && (from / w + k + 1) * w > col
  {
    if k > 0 {
      FloorOf(col, w, from / w + k);
      assert (from / w + k + 1) * w == (from / w + k) * w + w;
    } else {
      assert from == w * (from / w) + from % w;
      assert (from / w + 1) * w == w * (from / w) + w;
    }
  }

  lemma StopsGrow(w: nat, q: int, a: nat, b: nat)
    requires a <= b
    ensures (q + a) * w <= (q + b) * w
  {
    assert (q + b) * w == (q + a) * w + (b - a) * w;
    assert (b - a) * w >= 0;
  }

  /** Moving on from a stop that was chosen: there is a way, and its cost is what was counted for it. */
  lemma OnFrom(c: Caps, x: nat, to: nat, counted: int)
    requires Sane(c) && counted < BIG
    requires counted >= (if x <= to then (to - x) * Cost(c.right) else (x - to) * Cost(c.left))
    ensures Sideways(c, x, to).way
    ensures Sideways(c, x, to).cost == if x <= to then (to - x) * Cost(c.right) else (x - to) * Cost(c.left)
  {
    if x < to {
      AtMost(to - x, Cost(c.right));
    } else if x > to {
      AtMost(x - to, Cost(c.left));
    }
  }

  /** The tabs chosen stay on the screen, and what they cost is counted; the way on from there exists and
      is counted as well, so it is counted twice. */
  lemma TabsFit(c: Caps, from: nat, to: nat)
    requires Sane(c) && from < to < c.cols && c.tabwidth > 0 && TabCost(c) < BIG
    ensures var t := Tabs(c, from, to); var x := (from / c.tabwidth + t.n) * c.tabwidth;
            t.n > 0 ==> from < x < c.cols && Sideways(c, x, to).way && t.n * TabCost(c) + Sideways(c, x, to).cost == t.cost
  {
    hide Sideways;
    var w := c.tabwidth;
    var n: nat := Quotient(to - from + from % w, w);
    var x := (from / w + n) * w;
    TabStops(w, from, to);
    assert (from / w + (n + 1)) * w == x + w;
    var t := Tabs(c, from, to);
    if t.n > 0 {
      assert t.n * TabCost(c) >= 0;
      if t.n == n {
        OnFrom(c, x, to, t.cost);
      } else {
        OnFrom(c, x + w, to, t.cost);
      }
    }
  }

  lemma AtMost(n: int, c: int)
    requires n >= 1 && c >= 0
    ensures c <= n * c
  {
  }

  // ---- cmgoto's choice ----

  /** The absolute motion cmgoto considers, the least it can cost, and what it costs here. */
  function DirectMotion(c: Caps, y: int, x: int, row: nat, col: nat): Motion {
    if row == y && c.habs.Some? && c.habs.value(0) < BIG then Habs(col)
    else if col == x && c.vabs.Some? && c.vabs.value(0) < BIG then Vabs(row)
    else Abs(row, col)
  }

  function LeastDirect(c: Caps, m: Motion): int {
    match m
    case Habs(_) => if c.habs.Some? then c.habs.value(0) else BIG
    case Vabs(_) => if c.vabs.Some? then c.vabs.value(0) else BIG
    case _ => if c.abs.Some? then c.abs.value(0, 0) else BIG
  }

  /** What going by way of the home position, the last line or the left margin is estimated at. */
  function ViaHome(c: Caps, limbo: bool, row: nat, col: nat): int {
    if Cost(c.home) < BIG then Cost(c.home) + Relative(c, limbo, 0, 0, row, col).cost else BIG
  }

  function ViaLl(c: Caps, limbo: bool, row: nat, col: nat): int
    requires c.rows > 0
  {
    if Cost(c.ll) < BIG then Cost(c.ll) + Relative(c, limbo, c.rows - 1, 0, row, col).cost else BIG
  }

  function ViaCr(c: Caps, limbo: bool, y: nat, row: nat, col: nat): int {
    if Cost(c.cr) >= BIG || (c.autolf && y + 1 >= c.rows) then BIG
    else Cost(c.cr) + Relative(c, limbo, if c.autolf then y + 1 else y, 0, row, col).cost
  }

  /** The best estimate for a way without absolute motions. */
  function Cheapest(c: Caps, y: nat, x: nat, row: nat, col: nat): int
    requires c.rows > 0
  {
    var limbo := x == c.cols;
    Min(Min(Relative(c, limbo, y, x, row, col).cost, ViaHome(c, limbo, row, col)),
        Min(ViaLl(c, limbo, row, col), ViaCr(c, limbo, y, row, col)))
  }

  /** The absolute motion cmgoto considers from (y, x), which is not a position if it is not known. */
  function Direct(c: Caps, y: int, x: int, row: nat, col: nat): Motion {
    if y >= 0 && x >= 0 then DirectMotion(c, y, x, row, col) else Abs(row, col)
  }

  /** The terminal can get there: by the absolute motion, or, the position being known, without. */
  ghost predicate CanGo(c: Caps, y: int, x: int, row: nat, col: nat)
    requires c.rows > 0
  {
    var m := Direct(c, y, x, row, col);
    || (Chars(c, m).Some? && Chars(c, m).value < BIG && LeastDirect(c, m) < BIG)
    || (y >= 0 && x >= 0 && Cheapest(c, y, x, row, col) < BIG)
  }

  /** The characters a way across takes in fact. */
  function AcrossSent(c: Caps, from: nat, to: nat): int {
    if to <= from || TabCost(c) >= BIG || !c.usetabs then Sideways(c, from, to).cost
    else
      var t := Tabs(c, from, to);
      t.n * TabCost(c) + Sideways(c, if t.n == 0 then from else (from / c.tabwidth + t.n) * c.tabwidth, to).cost
  }

  /** The leftover after tabs is counted twice: the estimate is never less than what is sent, and it is what is
      sent exactly when no tabs are, or the last tab ends at the column wanted, or one step more costs nothing. */
  lemma EstimateExact(c: Caps, from: nat, to: nat)
    requires Sane(c) && from < c.cols && to < c.cols && Across(c, from, to).way
    ensures AcrossSent(c, from, to) <= Across(c, from, to).cost
    ensures AcrossSent(c, from, to) == Across(c, from, to).cost <==>
            || to <= from || TabCost(c) >= BIG || !c.usetabs
            || var n := Tabs(c, from, to).n; var x := (from / c.tabwidth + n) * c.tabwidth;
               (n == 0 || x == to || Cost(if to < x then c.left else c.right) == 0)
  {
    hide Tabs, Sideways;
    if from < to && TabCost(c) < BIG && c.usetabs {
      TabsFit(c, from, to);
      var t := Tabs(c, from, to);
      var x := (from / c.tabwidth + t.n) * c.tabwidth;
      NoTabs(c, from, to);
      if t.n > 0 {
        SidewaysFree(c, x, to);
        SidewaysCost(c, x, to);
      }
    }
  }

  lemma NoTabs(c: Caps, from: nat, to: nat)
    requires from < to && c.tabwidth > 0
    ensures Tabs(c, from, to).n == 0 ==> Tabs(c, from, to).cost == 0
  {
    hide TabCost, Cost;
    var t := Tabs(c, from, to);
    var n: nat := Quotient(to - from + from % c.tabwidth, c.tabwidth);
  }

  lemma SidewaysCost(c: Caps, from: int, to: int)
    ensures Sideways(c, from, to).cost >= 0
  {
  }

  lemma SidewaysFree(c: Caps, x: nat, to: nat)
    requires Sideways(c, x, to).way
    ensures Sideways(c, x, to).cost == 0 <==> x == to || Cost(if to < x then c.left else c.right) == 0
  {
    var d := if to < x then x - to else to - x;
    var o := if to < x then c.left else c.right;
    if d > 0 && Cost(o) > 0 {
      AtMost(d, Cost(o));
    }
  }

  datatype Use = UseRel | UseHome | UseLl | UseCr

  /** `cost` is what getting there by `use` is estimated at, and there is a way. */
  ghost predicate WayOf(c: Caps, y: nat, x: nat, row: nat, col: nat, use: Use, cost: int)
    requires c.rows > 0
  {
    match use
    case UseRel => var g := Relative(c, false, y, x, row, col); g.way && cost == g.cost
    case UseHome => var g := Relative(c, false, 0, 0, row, col); c.home.Some? && g.way && cost == c.home.value + g.cost
    case UseLl => var g := Relative(c, false, c.rows - 1, 0, row, col); c.ll.Some? && g.way && cost == c.ll.value + g.cost
    case UseCr =>
      var g := Relative(c, false, if c.autolf then y + 1 else y, 0, row, col);
      c.cr.Some? && (c.autolf ==> y + 1 < c.rows) && g.way && cost == c.cr.value + g.cost
  }

  /** The way that is estimated least; the first of several. */
  function BestUse(c: Caps, y: nat, x: nat, row: nat, col: nat): Use
    requires c.rows > 0
  {
    var limbo := x == c.cols;
    var rel, home := Relative(c, limbo, y, x, row, col).cost, ViaHome(c, limbo, row, col);
    var ll, cr := ViaLl(c, limbo, row, col), ViaCr(c, limbo, y, row, col);
    if cr < Min(Min(rel, home), ll) then UseCr
    else if ll < Min(rel, home) then UseLl
    else if home < rel then UseHome else UseRel
  }

  /** The characters up, down, left, right and tab take in fact. */
  function RelativeSent(c: Caps, y: nat, x: nat, row: nat, col: nat): int {
    (if row < y then Steps(c.up, y - row) else Steps(c.down, row - y)).cost + AcrossSent(c, x, col)
  }

  function UseSent(c: Caps, y: nat, x: nat, row: nat, col: nat, use: Use): int
    requires c.rows > 0
  {
    match use
    case UseRel => RelativeSent(c, y, x, row, col)
    case UseHome => Cost(c.home) + RelativeSent(c, 0, 0, row, col)
    case UseLl => Cost(c.ll) + RelativeSent(c, c.rows - 1, 0, row, col)
    case UseCr => Cost(c.cr) + RelativeSent(c, if c.autolf then y + 1 else y, 0, row, col)
  }

  /** Does cmgoto take the absolute motion it considers? */
  predicate GoesDirect(c: Caps, y: nat, x: nat, row: nat, col: nat)
    requires c.rows > 0
  {
    var m, e := Direct(c, y, x, row, col), Cheapest(c, y, x, row, col);
    Chars(c, m).Some? && LeastDirect(c, m) <= e && Chars(c, m).value <= e
  }

  /** All that cmgoto sends from a known position. */
  function Sent(c: Caps, y: nat, x: nat, row: nat, col: nat): int
    requires c.rows > 0
  {
    if row == y && col == x then 0
    else if GoesDirect(c, y, x, row, col) then Chars(c, Direct(c, y, x, row, col)).value
    else UseSent(c, y, x, row, col, BestUse(c, y, x, row, col))
  }

  lemma RelativeAtMost(c: Caps, y: nat, x: nat, row: nat, col: nat)
    requires Sane(c) && x < c.cols && col < c.cols && Relative(c, false, y, x, row, col).way
    ensures RelativeSent(c, y, x, row, col) <= Relative(c, false, y, x, row, col).cost
  {
    hide Across, AcrossSent;
    EstimateExact(c, x, col);
  }

  lemma UseAtMost(c: Caps, y: nat, x: nat, row: nat, col: nat, use: Use, cost: int)
    requires Sane(c) && x < c.cols && col < c.cols && WayOf(c, y, x, row, col, use, cost)
    ensures UseSent(c, y, x, row, col, use) <= cost
  {
    hide Relative, RelativeSent;
    match use {
      case UseRel => RelativeAtMost(c, y, x, row, col);
      case UseHome => RelativeAtMost(c, 0, 0, row, col);
      case UseLl => RelativeAtMost(c, c.rows - 1, 0, row, col);
      case UseCr => RelativeAtMost(c, if c.autolf then y + 1 else y, 0, row, col);
    }
  }

  /** An estimate below BIG is that of the way chosen, and there is such a way. */
  lemma BestWay(c: Caps, y: nat, x: nat, row: nat, col: nat)
    requires Sane(c) && Cheapest(c, y, x, row, col) < BIG
    ensures x != c.cols && WayOf(c, y, x, row, col, BestUse(c, y, x, row, col), Cheapest(c, y, x, row, col))
  {
    hide Relative;
    var limbo := x == c.cols;
    RelativeWay(c, limbo, y, x, row, col);
    RelativeWay(c, limbo, 0, 0, row, col);
    RelativeWay(c, limbo, c.rows - 1, 0, row, col);
    RelativeWay(c, limbo, if c.autolf then y + 1 else y, 0, row, col);
  }

  lemma RelativeWay(c: Caps, limbo: bool, y: nat, x: nat, row: nat, col: nat)
    ensures Relative(c, limbo, y, x, row, col).cost < BIG ==> Relative(c, limbo, y, x, row, col).way && !limbo
  {
    hide Across;
  }

  /** What cmgoto sends, against the general absolute motion.  Where the motion considered is the general one it
      never sends more.  Where it considers a horizontal or vertical one and takes it, it sends more exactly
      when that one is longer; where it does not take it, that one is longer than what is sent. */
  lemma AgainstGeneral(c: Caps, y: nat, x: nat, row: nat, col: nat)
    requires Sane(c) && OnScreen(c, row, col) && OnScreen(c, y, if x == c.cols then 0 else x) && CanGo(c, y, x, row, col)
    requires c.abs.Some? && (row != y || col != x)
    requires var m := Direct(c, y, x, row, col); Chars(c, m).Some? && LeastDirect(c, m) <= Chars(c, m).value
    ensures var m, general := Direct(c, y, x, row, col), Chars(c, Abs(row, col)).value;
            var sent := Sent(c, y, x, row, col);
            && (m == Abs(row, col) ==> sent <= general)
            && (GoesDirect(c, y, x, row, col) ==> (sent <= general <==> Chars(c, m).value <= general))
            && (!GoesDirect(c, y, x, row, col) ==> sent <= Cheapest(c, y, x, row, col) < Chars(c, m).value)
  {
    hide Cheapest, BestUse, UseSent;
    if !GoesDirect(c, y, x, row, col) {
      BestWay(c, y, x, row, col);
      UseAtMost(c, y, x, row, col, BestUse(c, y, x, row, col), Cheapest(c, y, x, row, col));
    }
  }

  class Cursor {
    const caps: Caps
    var curY: int
    var curX: int
    var oops: bool                 // calccost was asked to go where it cannot
    ghost var row: int             // where the terminal's cursor is
    ghost var col: int
    ghost var spent: nat           // characters sent so far

    ghost predicate Valid()
      reads this
    {
      && Sane(caps) && OnScreen(caps, row, col)
      && (curY >= 0 && curX >= 0 ==> curY == row && (curX == col || curX == caps.cols))
    }

    constructor (caps: Caps)
      requires Sane(caps)
      ensures this.caps == caps && Valid() && curY == -1 && !oops && spent == 0
    {
      this.caps, curY, curX, oops, row, col, spent := caps, -1, 0, false, 0, 0, 0;
    }

    /** tputs (p, 1, cmputc). */
    method Send(m: Motion)
      requires Chars(caps, m).Some? && OnScreen(caps, row, col) && Stays(caps, row, col, m)
      modifies this`row, this`col, this`spent
      ensures (row, col) == Moved(caps, old(row), old(col), m)
      ensures spent == old(spent) + Chars(caps, m).value
    {
      ghost var p := Moved(caps, row, col, m);
      row, col := p.0, p.1;
      spent := spent + Chars(caps, m).value;
    }

    /** A motion by one, `n` times. */
    method Repeat(m: Motion, n: nat)
      requires m in {Up, Down, Left, Right} && Chars(caps, m).Some? && OnScreen(caps, row, col)
      requires match m case Up => n <= row case Down => row + n < caps.rows case Left => n <= col case _ => col + n < caps.cols
      modifies this`row, this`col, this`spent
      ensures row == match m case Up => old(row) - n case Down => old(row) + n case _ => old(row)
      ensures col == match m case Left => old(col) - n case Right => old(col) + n case _ => old(col)
      ensures spent == old(spent) + n * Chars(caps, m).value
    {
      var i := n;
      assert (n - i) * Chars(caps, m).value == 0;
      while i > 0
        invariant 0 <= i <= n
        invariant row == match m case Up => old(row) - (n - i) case Down => old(row) + (n - i) case _ => old(row)
        invariant col == match m case Left => old(col) - (n - i) case Right => old(col) + (n - i) case _ => old(col)
        invariant spent == old(spent) + (n - i) * Chars(caps, m).value
      {
        i := i - 1;
        Send(m);
        assert (n - i) * Chars(caps, m).value == (n - i - 1) * Chars(caps, m).value + Chars(caps, m).value;
      }
    }

    /** `n` tabs. */
    method RepeatTab(n: nat)
      requires caps.tab.Some? && caps.tabwidth > 0 && OnScreen(caps, row, col)
      requires n > 0 ==> (col / caps.tabwidth + n) * caps.tabwidth < caps.cols
      modifies this`row, this`col, this`spent
      ensures row == old(row) && col == if n == 0 then old(col) else (old(col) / caps.tabwidth + n) * caps.tabwidth
      ensures spent == old(spent) + n * caps.tab.value
    {
      ghost var from: nat := col;
      var w := caps.tabwidth;
      assert 0 * caps.tab.value == 0;
      var i := n;
      while i > 0
        invariant 0 <= i <= n && row == old(row) && 0 <= col < caps.cols
        invariant col == if i == n then from else (from / w + (n - i)) * w
        invariant spent == old(spent) + (n - i) * caps.tab.value
      {
        NextStop(w, from, n - i, col);
        StopsGrow(w, from / w, n - i + 1, n);
        i := i - 1;
        Send(Tab);
        assert (n - i) * caps.tab.value == (n - i - 1) * caps.tab.value + caps.tab.value;
      }
    }

    /** Choose the tabs for moving right: how many, what they are counted for, and where they end. */
    method ChooseTabs(srcx: nat, dstx: nat) returns (n: nat, tabcost: int, tabx: nat)
      requires Sane(caps) && srcx < dstx < caps.cols && caps.tabwidth > 0
      ensures Tabbing(n, tabcost) == Tabs(caps, srcx, dstx) && (n == 0 ==> tabcost == 0)
      ensures tabx == if n == 0 then srcx else (srcx / caps.tabwidth + n) * caps.tabwidth
    {
      var w := caps.tabwidth;
      TabStops(w, srcx, dstx);
      var ntabs: nat := Quotient(dstx - srcx + srcx % w, w);
      var n2tabs := ntabs + 1;
      tabx := (srcx / w + ntabs) * w;
      var tab2x := tabx + w;
      if tab2x >= caps.cols {
        n2tabs := 0;
      }
      tabcost := if ntabs != 0 then ntabs * TabCost(caps) + (dstx - tabx) * Cost(caps.right) else BIG;
      var c := if n2tabs != 0 then n2tabs * TabCost(caps) + (tab2x - dstx) * Cost(caps.left) else BIG;
      assert (srcx / w + (ntabs + 1)) * w == tab2x;
      if c < tabcost {
        ntabs, tabcost, tabx := n2tabs, c, tab2x;
      }
      n := ntabs;
      if tabcost >= BIG || tabcost >= (dstx - srcx) * Cost(caps.right) {
        n, tabcost, tabx := 0, 0, srcx;
      }
    }

    /** Columns, one at a time. */
    method Walk(from: nat, to: nat, doit: bool) returns (g: Guess)
      requires Sane(caps) && from < caps.cols && to < caps.cols && (doit ==> OnScreen(caps, row, col) && col == from)
      modifies this`row, this`col, this`spent, this`oops
      ensures g == Sideways(caps, from, to)
      ensures !doit ==> row == old(row) && col == old(col) && spent == old(spent) && oops == old(oops)
      ensures doit && g.way ==> row == old(row) && col == to && spent == old(spent) + g.cost && oops == old(oops)
      ensures doit && !g.way ==> oops
    {
      if from == to {
        return Guess(0, true);
      }
      var m, deltax := if to < from then Left else Right, if to < from then from - to else to - from;
      if Cost(Chars(caps, m)) == BIG {
        oops := oops || doit;
        return NOWAY;
      }
      if doit {
        Repeat(m, deltax);
      }
      g := Guess(Cost(Chars(caps, m)) * deltax, true);
    }

    /** The second half of calccost: columns. */
    method MoveAcross(srcx: nat, dstx: nat, doit: bool) returns (g: Guess)
      requires Sane(caps) && srcx < caps.cols && dstx < caps.cols && (doit ==> OnScreen(caps, row, col) && col == srcx)
      modifies this`row, this`col, this`spent, this`oops
      ensures g == Across(caps, srcx, dstx)
      ensures !doit ==> row == old(row) && col == old(col) && spent == old(spent) && oops == old(oops)
      ensures doit && g.way ==>
                row == old(row) && col == dstx && spent == old(spent) + AcrossSent(caps, srcx, dstx) && oops == old(oops)
      ensures doit && !g.way ==> oops
    {
      hide Tabs;
      if dstx <= srcx || TabCost(caps) >= BIG || !caps.usetabs {
        g := Walk(srcx, dstx, doit);
        return;
      }
      var n, tabcost, tabx := ChooseTabs(srcx, dstx);
      TabsFit(caps, srcx, dstx);
      if doit && n > 0 {
        assert n * TabCost(caps) == n * caps.tab.value;
        RepeatTab(n);
      }
      g := Walk(tabx, dstx, doit);
      if g.way {
        g := Guess(tabcost + g.cost, true);
      }
    }

    /** calccost.  The dry run and the real run are the same code: what the dry run returns is an
        estimate that is below BIG only if the real run gets there, and that the real run never
        exceeds. */
    method CalcCost(srcy: nat, srcx: nat, dsty: nat, dstx: nat, doit: bool) returns (total: int)
      requires Sane(caps) && (curX == caps.cols || OnScreen(caps, srcy, srcx)) && OnScreen(caps, dsty, dstx)
      requires doit ==> row == srcy && col == srcx
      modifies this`row, this`col, this`spent, this`oops
      ensures var g := Relative(caps, curX == caps.cols, srcy, srcx, dsty, dstx);
              && total == g.cost && (total < BIG ==> g.way) && (curX == caps.cols ==> total == BIG)
              && (!doit ==> row == old(row) && col == old(col) && spent == old(spent) && oops == old(oops))
              && (doit && g.way ==> row == dsty && col == dstx && oops == old(oops))
              && (doit && g.way ==> spent == old(spent) + RelativeSent(caps, srcy, srcx, dsty, dstx) <= old(spent) + total)
              && (doit && !g.way ==> oops)
    {
      hide Across, AcrossSent;
      if curX == caps.cols {
        oops := oops || doit;
        return BIG;
      }
      total := 0;
      var m, deltay := if dsty < srcy then Up else Down, if dsty < srcy then srcy - dsty else dsty - srcy;
      if deltay != 0 {
        if Cost(Chars(caps, m)) == BIG {
          oops := oops || doit;
          return BIG;
        }
        total := Cost(Chars(caps, m)) * deltay;
        if doit {
          assert deltay * Chars(caps, m).value == total;
          Repeat(m, deltay);
        }
      }
      var more := MoveAcross(srcx, dstx, doit);
      if more.way {
        EstimateExact(caps, srcx, dstx);
      }
      if more.way {
        total := total + more.cost;
      } else {
        total := BIG;
      }
    }

    method CrCost(r: nat, k: nat) returns (crcost: int)
      requires Valid() && OnScreen(caps, r, k) && curY >= 0 && curX >= 0
      modifies this`row, this`col, this`spent, this`oops
      ensures row == old(row) && col == old(col) && spent == old(spent) && oops == old(oops)
      ensures crcost == ViaCr(caps, curX == caps.cols, curY, r, k)
      ensures crcost < BIG ==> curX != caps.cols && WayOf(caps, curY, curX, r, k, UseCr, crcost)
    {
      hide Relative;
      crcost := Cost(caps.cr);
      if crcost < BIG {
        if caps.autolf {
          if curY + 1 >= caps.rows {
            crcost := BIG;
          } else {
            var c := CalcCost(curY + 1, 0, r, k, false);
            crcost := crcost + c;
          }
        } else {
          var c := CalcCost(curY, 0, r, k, false);
          crcost := crcost + c;
        }
      }
    }

    /** The choice of cmgoto among the ways without absolute motions. */
    method Choose(r: nat, k: nat) returns (relcost: int, use: Use)
      requires Valid() && OnScreen(caps, r, k) && curY >= 0 && curX >= 0
      modifies this`row, this`col, this`spent, this`oops
      ensures row == old(row) && col == old(col) && spent == old(spent) && oops == old(oops)
      ensures relcost == Cheapest(caps, curY, curX, r, k) && use == BestUse(caps, curY, curX, r, k)
      ensures relcost < BIG ==> curX != caps.cols && WayOf(caps, curY, curX, r, k, use, relcost)
    {
      hide Relative;
      relcost := CalcCost(curY, curX, r, k, false);
      use := UseRel;
      var homecost := Cost(caps.home);
      if homecost < BIG {
        var c := CalcCost(0, 0, r, k, false);
        homecost := homecost + c;
      }
      if homecost < relcost {
        relcost, use := homecost, UseHome;
      }
      var llcost := Cost(caps.ll);
      if llcost < BIG {
        var c := CalcCost(caps.rows - 1, 0, r, k, false);
        llcost := llcost + c;
      }
      if llcost < relcost {
        relcost, use := llcost, UseLl;
      }
      var crcost := CrCost(r, k);
      if crcost < relcost {
        relcost, use := crcost, UseCr;
      }
    }

    /** The end of cmgoto: go there by the chosen way. */
    method GoBy(use: Use, r: nat, k: nat, ghost relcost: int)
      requires Valid() && OnScreen(caps, r, k) && curY >= 0 && curX >= 0 && curX != caps.cols
      requires WayOf(caps, curY, curX, r, k, use, relcost)
      modifies this
      ensures Valid() && row == curY == r && col == curX == k && oops == old(oops)
      ensures spent == old(spent) + UseSent(caps, old(curY), old(curX), r, k, use) <= old(spent) + relcost
    {
      hide Relative, RelativeSent;
      match use {
      case UseRel =>
      case UseHome =>
        Send(Home);
        curY, curX := 0, 0;
      case UseLl =>
        Send(Ll);
        curY, curX := caps.rows - 1, 0;
      case UseCr =>
        Send(Cr);
        if caps.autolf {
          curY := curY + 1;
        }
        curX := 0;
      }
      var _ := CalcCost(curY, curX, r, k, true);
      curY, curX := r, k;
    }

    /** cmgoto.  The cursor gets there; calccost is never asked to go where it cannot; and what is sent is, from
        a known position, the absolute motion considered or the way estimated least, and from an unknown one the
        absolute motion.  So no more is sent than the absolute motion considered takes, if the least that motion
        can cost is at most what it costs here, nor more than any of the estimates. */
    method Goto(r: nat, k: nat)
      requires Valid() && OnScreen(caps, r, k) && CanGo(caps, curY, curX, r, k)
      modifies this
      ensures Valid() && row == curY == r && col == curX == k && oops == old(oops)
      ensures old(curY) >= 0 && old(curX) >= 0 ==> spent == old(spent) + Sent(caps, old(curY), old(curX), r, k)
      ensures !(old(curY) >= 0 && old(curX) >= 0) && (r != old(curY) || k != old(curX)) ==>
                spent == old(spent) + Chars(caps, Abs(r, k)).value
      ensures var m := Direct(caps, old(curY), old(curX), r, k);
              Chars(caps, m).Some? && LeastDirect(caps, m) <= Chars(caps, m).value ==>
                spent <= old(spent) + Chars(caps, m).value
      ensures old(curY) >= 0 && old(curX) >= 0 ==>
                spent <= old(spent) + Cheapest(caps, old(curY), old(curX), r, k) || (r == old(curY) && k == old(curX))
    {
      hide Relative, Cheapest, BestUse, UseSent;
      if r == curY && k == curX {
        return;
      }
      var relcost, use := 100000, UseRel;
      var directcost := 0;
      var m := Direct(caps, curY, curX, r, k);
      if curY >= 0 && curX >= 0 {
        relcost, use := Choose(r, k);
        directcost := LeastDirect(caps, m);
      }
      if directcost <= relcost {
        if Chars(caps, m).value <= relcost {
          Send(m);
          curY, curX := r, k;
          return;
        }
      }
      GoBy(use, r, k, relcost);
    }
  }

  /** On the row the cursor is on, cmgoto considers the horizontal motion only, and so sends more than the
      general absolute motion takes if that is the shorter one. */
  method LongerThanGeneral() returns (cursor: Cursor, ghost sent: int)
    ensures cursor.Valid() && cursor.row == 3 && cursor.col == 40
    ensures Chars(cursor.caps, Abs(3, 40)) == Some(4) && sent == 6
  {
    var c := Caps(None, None, None, None, None, None, None, None,
                  Some((r: nat, k: nat) => 4), Some((k: nat) => 6), None, 0, 80, 24, false, false);
    cursor := new Cursor(c);
    cursor.Goto(3, 0);
    ghost var before := cursor.spent;
    cursor.Goto(3, 40);
    sent := cursor.spent - before;
    assert GoesDirect(c, 3, 0, 3, 40);
  }
}
