/** Scrolling some of the screen's lines: the record of what is on the terminal moves with it. */
module ScrollLines {

  // ---- moving elements of an array ----

  /** safe_bcopy: the right direction makes overlap harmless. */
  method SafeBcopy<T>(a: array<T>, from: nat, to: nat, size: nat)
    requires from + size <= a.Length && to + size <= a.Length
    modifies a
    ensures forall j :: 0 <= j < a.Length ==>
              a[j] == if to <= j < to + size then old(a[from + (j - to)]) else old(a[j])
  {
    if size == 0 {
      return;
    }
    if from > to {
      var i := 0;
      while i < size
        invariant 0 <= i <= size
        invariant forall j :: 0 <= j < a.Length ==>
                    a[j] == if to <= j < to + i then old(a[from + (j - to)]) else old(a[j])
      {
        a[to + i] := a[from + i];
        i := i + 1;
      }
      return;
    }
    var i := size;
    while i > 0
      invariant 0 <= i <= size
      invariant forall j :: 0 <= j < a.Length ==>
                  a[j] == if to + i <= j < to + size then old(a[from + (j - to)]) else old(a[j])
    {
      i := i - 1;
      a[to + i] := a[from + i];
    }
  }

  /** rotate_vector, of the `size` elements at `base`, by `distance`. */
  method RotateVector<T>(a: array<T>, base: nat, size: nat, distance: int)
    requires base + size <= a.Length && distance <= size && 0 <= distance + size
    modifies a
    ensures var d := if distance < 0 then distance + size else distance;
            forall j :: 0 <= j < a.Length ==>
              a[j] == if base <= j < base + d then old(a[j + size - d])
                      else if base + d <= j < base + size then old(a[j - d])
                      else old(a[j])
  {
    var d := if distance < 0 then distance + size else distance;
    var temp := a[base + size - d..base + size] + a[base..base + size - d];
    var i := 0;
    while i < size
      invariant 0 <= i <= size
      invariant forall j :: 0 <= j < a.Length ==>
                  a[j] == if base <= j < base + i then temp[j - base] else old(a[j])
    {
      a[base + i] := temp[i];
      i := i + 1;
    }
  }

  method Fill<T>(a: array<T>, from: nat, size: nat, x: T)
    requires from + size <= a.Length
    modifies a
    ensures forall j :: 0 <= j < a.Length ==> a[j] == if from <= j < from + size then x else old(a[j])
  {
    var i := 0;
    while i < size
      invariant 0 <= i <= size
      invariant forall j :: 0 <= j < a.Length ==> a[j] == if from <= j < from + i then x else old(a[j])
    {
      a[from + i] := x;
      i := i + 1;
    }
  }

  // ---- the terminal ----

  datatype Row = Row(text: seq<char>, standout: bool)

  function Blanks(n: nat): seq<char> {
    seq(n, _ => ' ')
  }

  /** The rows after inserting `n` blank ones at `v`, or deleting -n there, in the first `region` rows. */
  function InsDel(rows: seq<Row>, region: nat, v: nat, n: int, blank: Row): (r: seq<Row>)
    requires region <= |rows| && v + (if n < 0 then -n else n) <= region
    ensures |r| == |rows|
  {
    if n >= 0 then rows[..v] + seq(n, _ => blank) + rows[v..region - n] + rows[region..]
    else rows[..v] + rows[v - n..region] + seq(-n, _ => blank) + rows[region..]
  }

  /** Inserting and deleting around the lines that move: seen from any row, they moved by `amount`, and
      blank rows came in behind them. */
  function Moved(rows: seq<Row>, from: nat, end: nat, amount: int, blank: Row, v: nat): Row
    requires v < |rows| && from <= end && 0 <= from + amount && end + amount <= |rows| && end <= |rows|
  {
    if from + amount <= v < end + amount then rows[v - amount]
    else if from <= v < from + amount || end + amount <= v < end then blank
    else rows[v]
  }

  /** One row of the result. */
  lemma InsDelAt(rows: seq<Row>, region: nat, v: nat, n: int, blank: Row, i: nat)
    requires region <= |rows| && v + (if n < 0 then -n else n) <= region && i < |rows|
    ensures InsDel(rows, region, v, n, blank)[i] ==
            if i < v || i >= region then rows[i]
            else if n >= 0 then (if i < v + n then blank else rows[i - n])
            else if i < region + n then rows[i - n] else blank
  {
  }

  /** Scrolling down: in a window the terminal knows; or, if it can only scroll all of the screen, after
      as many rows were deleted below the window. */
  lemma MovedDown(rows: seq<Row>, rows1: seq<Row>, rows2: seq<Row>, region: nat, from: nat, end: nat, amount: int,
                  blank: Row)
    requires 0 < amount && from <= end && end + amount <= region <= |rows|
    requires if region == end + amount && rows1 == rows then true
             else region == |rows| && rows1 == InsDel(rows, region, end, -amount, blank)
    requires |rows1| == |rows2| == |rows| && rows2 == InsDel(rows1, region, from, amount, blank)
    ensures |rows2| == |rows| && forall v :: 0 <= v < |rows| ==> rows2[v] == Moved(rows, from, end, amount, blank, v)
  {
    hide InsDel;
    forall v | 0 <= v < |rows|
      ensures rows2[v] == Moved(rows, from, end, amount, blank, v)
    {
      InsDelAt(rows1, region, from, amount, blank, v);
      if !(region == end + amount && rows1 == rows) {
        InsDelAt(rows, region, end, -amount, blank, v);
        if v >= amount {
          InsDelAt(rows, region, end, -amount, blank, v - amount);
        }
      }
    }
  }

  /** Scrolling up: in a window the terminal knows; or, if it can only scroll all of the screen, with as many
      rows inserted below the window afterwards. */
  lemma MovedUp(rows: seq<Row>, rows1: seq<Row>, rows2: seq<Row>, region: nat, from: nat, end: nat, k: int, blank: Row)
    requires 0 < k <= from <= end <= region <= |rows|
    requires |rows1| == |rows| && rows1 == InsDel(rows, region, from - k, -k, blank)
    requires |rows2| == |rows|
    requires if region == end && rows2 == rows1 then true
             else region == |rows| && rows2 == InsDel(rows1, region, end - k, k, blank)
    ensures |rows2| == |rows| && forall v :: 0 <= v < |rows| ==> rows2[v] == Moved(rows, from, end, -k, blank, v)
  {
    hide InsDel;
    forall v | 0 <= v < |rows|
      ensures rows2[v] == Moved(rows, from, end, -k, blank, v)
    {
      InsDelAt(rows, region, from - k, -k, blank, v);
      if !(region == end && rows2 == rows1) {
        InsDelAt(rows1, region, end - k, k, blank, v);
        if v >= k {
          InsDelAt(rows, region, from - k, -k, blank, v - k);
        }
      }
    }
  }

  class Terminal {
    const width: nat
    const scrollRegionOk: bool       // it can limit scrolling to some of its rows
    var rows: seq<Row>
    var window: nat                  // the rows it scrolls, if it can

    ghost predicate Valid()
      reads this
    {
      window <= |rows|
    }

    function Blank(): Row {
      Row(Blanks(width), false)
    }

    /** set_terminal_window; 0 is the whole screen. */
    method SetWindow(size: nat)
      requires size <= |rows|
      modifies this
      ensures Valid() && rows == old(rows) && window == if size == 0 then |rows| else size
    {
      window := if size == 0 then |rows| else size;
    }

    function Region(): nat
      reads this
    {
      if scrollRegionOk then window else |rows|
    }

    /** ins_del_lines. */
    method InsDelLines(v: nat, n: int)
      requires Valid() && v + (if n < 0 then -n else n) <= Region()
      modifies this
      ensures Valid() && window == old(window) && |rows| == |old(rows)|
      ensures rows == InsDel(old(rows), old(Region()), v, n, Blank())
    {
      rows := InsDel(rows, Region(), v, n, Blank());
    }

    /** Scrolling down, as scroll_screen_lines asks for it. */
    method ScrollDown(from: nat, end: nat, amount: int)
      requires Valid() && 0 < amount && from <= end && end + amount <= |rows|
      modifies this
      ensures Valid() && |rows| == |old(rows)|
      ensures forall v :: 0 <= v < |rows| ==> rows[v] == Moved(old(rows), from, end, amount, Blank(), v)
    {
      hide InsDel, Moved;
      ghost var before := rows;
      SetWindow(end + amount);
      ghost var region := Region();
      if !scrollRegionOk {
        InsDelLines(end, -amount);
      }
      ghost var between := rows;
      InsDelLines(from, amount);
      MovedDown(before, between, rows, region, from, end, amount, Blank());
      SetWindow(0);
    }

    /** Scrolling up. */
    method ScrollUp(from: nat, end: nat, k: int)
      requires Valid() && 0 < k <= from <= end <= |rows|
      modifies this
      ensures Valid() && |rows| == |old(rows)|
      ensures forall v :: 0 <= v < |rows| ==> rows[v] == Moved(old(rows), from, end, -k, Blank(), v)
    {
      hide InsDel, Moved;
      ghost var before := rows;
      SetWindow(end);
      ghost var region := Region();
      InsDelLines(from - k, -k);
      ghost var between := rows;
      if !scrollRegionOk {
        InsDelLines(end - k, k);
      }
      MovedUp(before, between, rows, region, from, end, k, Blank());
      SetWindow(0);
    }
  }

  // ---- the record of the screen ----

  /** Where the line buffer of row `v` was before scrolling: the buffers of the lines that are
      overwritten go to the rows that are vacated. */
  function Source(from: nat, end: nat, amount: int, v: int): int {
    if from + amount <= v < end + amount then v - amount
    else if from <= v < from + amount then v + (end - from)
    else if end + amount <= v < end then v - (end - from)
    else v
  }

  /** Every row has a source, and the vacated ones are next to where the lines went. */
  lemma Sources(from: nat, end: nat, amount: int, height: nat)
    requires from <= end && 0 <= from + amount && end + amount <= height && end <= height
    ensures forall v :: 0 <= v < height ==> 0 <= Source(from, end, amount, v) < height
    ensures amount > 0 ==> forall v :: 0 <= v < height ==> (Vacated(from, end, amount, v) <==> from <= v < from + amount)
    ensures amount < 0 ==> forall v :: 0 <= v < height ==> (Vacated(from, end, amount, v) <==> end + amount <= v < end)
  {
  }

  lemma SourceOneToOne(from: nat, end: nat, amount: int, v: int, w: int)
    requires from <= end && 0 <= from + amount && Source(from, end, amount, v) == Source(from, end, amount, w)
    ensures v == w
  {
  }

  ghost predicate Vacated(from: nat, end: nat, amount: int, v: int) {
    (from <= v < from + amount || end + amount <= v < end) && !(from + amount <= v < end + amount)
  }

  /** The record of the screen at one moment. */
  datatype Snapshot = Snapshot(lines: seq<array<char>>, text: seq<seq<char>>, used: seq<nat>, highlight: seq<bool>,
                               enable: seq<bool>)

  ghost predicate Sized(s: Snapshot, height: nat) {
    |s.lines| == |s.text| == |s.used| == |s.highlight| == |s.enable| == height
  }

  /** The record of each row, if it is enabled, says what is on the terminal there. */
  ghost predicate Described(s: Snapshot, rows: seq<Row>, height: nat, width: nat)
    requires Sized(s, height) && |rows| == height
  {
    forall v :: 0 <= v < height && s.enable[v] ==>
      && s.used[v] <= width <= |s.text[v]|
      && rows[v] == Row(s.text[v][..s.used[v]] + Blanks(width - s.used[v]), s.highlight[v])
  }

  /** After scrolling from `s` to `t`, what row `v` holds, in terms of where it came from. */
  ghost predicate RowScrolled(s: Snapshot, t: Snapshot, height: nat, from: nat, end: nat, amount: int, v: nat)
    requires Sized(s, height) && Sized(t, height) && v < height
    requires from <= end && 0 <= from + amount && end + amount <= height && end <= height
  {
    var w := Source(from, end, amount, v);
    && t.lines[v] == s.lines[w]
    && if Vacated(from, end, amount, v) then t.used[v] == 0 && !t.highlight[v] && t.enable[v] && |t.text[v]| == |s.text[w]|
       else t.used[v] == s.used[w] && t.highlight[v] == s.highlight[w] && t.enable[v] == s.enable[w] && t.text[v] == s.text[w]
  }

  ghost predicate Scrolled(s: Snapshot, t: Snapshot, height: nat, from: nat, end: nat, amount: int)
    requires Sized(s, height) && Sized(t, height)
    requires from <= end && 0 <= from + amount && end + amount <= height && end <= height
  {
    forall v :: 0 <= v < height ==> RowScrolled(s, t, height, from, end, amount, v)
  }

  lemma Unscrolled(s: Snapshot, rows: seq<Row>, height: nat, from: nat, end: nat, blank: Row)
    requires Sized(s, height) && |rows| == height && from <= end <= height
    ensures Scrolled(s, s, height, from, end, 0)
    ensures forall v :: 0 <= v < height ==> rows[v] == Moved(rows, from, end, 0, blank, v)
  {
  }

  /** The record describes the terminal again. */
  lemma Redescribed(s: Snapshot, t: Snapshot, before: seq<Row>, after: seq<Row>, height: nat, width: nat, from: nat,
                    end: nat, amount: int)
    requires Sized(s, height) && Sized(t, height) && |before| == |after| == height
    requires Described(s, before, height, width)
    requires from <= end && 0 <= from + amount && end + amount <= height && end <= height
    requires Scrolled(s, t, height, from, end, amount)
    requires forall v :: 0 <= v < height ==> after[v] == Moved(before, from, end, amount, Row(Blanks(width), false), v)
    requires forall v :: 0 <= v < height ==> |s.text[v]| == width + 1
    ensures Described(t, after, height, width)
  {
    forall v | 0 <= v < height && t.enable[v]
      ensures t.used[v] <= width <= |t.text[v]|
      ensures after[v] == Row(t.text[v][..t.used[v]] + Blanks(width - t.used[v]), t.highlight[v])
    {
      var w := Source(from, end, amount, v);
      assert RowScrolled(s, t, height, from, end, amount, v);
      if Vacated(from, end, amount, v) {
        assert t.text[v][..0] + Blanks(width) == Blanks(width);
      } else {
        assert after[v] == before[w];
      }
    }
  }

  ghost function Texts(lines: seq<array<char>>): (t: seq<seq<char>>)
    reads lines
    ensures |t| == |lines| && forall v :: 0 <= v < |lines| ==> t[v] == lines[v][..]
  {
    seq(|lines|, i requires 0 <= i < |lines| reads lines => lines[i][..])
  }

  class Screen {
    const height: nat
    const width: nat
    const terminal: Terminal
    const lineInsDelOk: bool
    const contents: array<array<char>>
    const used: array<nat>
    const highlight: array<bool>
    const enable: array<bool>

    /** Each row has a line buffer of its own. */
    ghost predicate Shape()
      reads this, contents, terminal
    {
      && contents.Length == used.Length == highlight.Length == enable.Length == height
      && highlight != enable
      && (forall v :: 0 <= v < height ==> contents[v].Length == width + 1)
      && (forall v, w :: 0 <= v < w < height ==> contents[v] != contents[w])
      && terminal.width == width && |terminal.rows| == height && terminal.Valid()
    }

    ghost function Now(): Snapshot
      requires Shape()
      reads this, contents, contents[..], used, highlight, enable, terminal
    {
      Snapshot(contents[..], Texts(contents[..]), used[..], highlight[..], enable[..])
    }

    ghost predicate Valid()
      reads this, contents, contents[..], used, highlight, enable, terminal
    {
      Shape() && Described(Now(), terminal.rows, height, width)
    }

    /** init: nothing is known of what is on the terminal. */
    constructor (terminal: Terminal, height: nat, lineInsDelOk: bool)
      requires terminal.Valid() && |terminal.rows| == height
      ensures Valid() && this.terminal == terminal && this.height == height && this.lineInsDelOk == lineInsDelOk
      ensures fresh(contents) && fresh(used) && fresh(highlight) && fresh(enable)
    {
      this.terminal, this.height, this.lineInsDelOk := terminal, height, lineInsDelOk;
      this.width := terminal.width;
      var lines := NewLines(height, terminal.width);
      this.contents := lines;
      used := new nat[height](_ => 0);
      highlight := new bool[height](_ => false);
      enable := new bool[height](_ => false);
    }

    static method NewLines(height: nat, width: nat) returns (lines: array<array<char>>)
      ensures fresh(lines) && lines.Length == height
      ensures forall v :: 0 <= v < height ==> lines[v].Length == width + 1
      ensures forall v, w :: 0 <= v < w < height ==> lines[v] != lines[w]
    {
      var made: seq<array<char>> := [];
      while |made| < height
        invariant |made| <= height
        invariant forall v :: 0 <= v < |made| ==> made[v].Length == width + 1
        invariant forall v, w :: 0 <= v < w < |made| ==> made[v] != made[w]
      {
        var line := new char[width + 1];
        made := made + [line];
      }
      lines := new array<char>[height](v requires 0 <= v < height => made[v]);
    }

    /** The buffers are still all different. */
    lemma StillApart(lines: seq<array<char>>, from: nat, end: nat, amount: int)
      requires |lines| == height == contents.Length && forall v, w :: 0 <= v < w < height ==> lines[v] != lines[w]
      requires from <= end && 0 <= from + amount && end + amount <= height && end <= height
      requires forall v :: 0 <= v < height ==> contents[v] == lines[Source(from, end, amount, v)]
      ensures forall v, w :: 0 <= v < w < height ==> contents[v] != contents[w]
    {
      forall v, w | 0 <= v < w < height
        ensures contents[v] != contents[w]
      {
        if contents[v] == contents[w] {
          var i, j := Source(from, end, amount, v), Source(from, end, amount, w);
          assert lines[i] == lines[j];
          assert i == j;
          SourceOneToOne(from, end, amount, v, w);
        }
      }
    }

    /** Make `n` rows at `lo` enabled, their buffers empty. */
    method Enable(lo: nat, n: nat)
      requires Shape() && lo + n <= height
      modifies enable, contents[lo..lo + n]
      ensures Shape() && contents[..] == old(contents[..])
      ensures forall v :: 0 <= v < height ==> enable[v] == if lo <= v < lo + n then true else old(enable[v])
      ensures forall v :: 0 <= v < height && !(lo <= v < lo + n) ==> contents[v][..] == old(contents[v][..])
    {
      var i := lo;
      while i < lo + n
        invariant lo <= i <= lo + n
        invariant Shape() && contents[..] == old(contents[..])
        invariant forall v :: 0 <= v < height ==> enable[v] == if lo <= v < i then true else old(enable[v])
        invariant forall v :: 0 <= v < height && !(lo <= v < lo + n) ==> contents[v][..] == old(contents[v][..])
      {
        assert contents[i] == contents[..][i] == old(contents[..])[i] == old(contents[lo..lo + n])[i - lo];
        contents[i][0] := '\0';
        enable[i] := true;
        i := i + 1;
      }
    }

    /** Make `n` rows at `lo` enabled, empty and normal. */
    method Vacate(lo: nat, n: nat)
      requires Shape() && lo + n <= height
      modifies used, highlight, enable, contents[lo..lo + n]
      ensures Shape() && contents[..] == old(contents[..])
      ensures forall v :: 0 <= v < height ==>
                if lo <= v < lo + n then used[v] == 0 && !highlight[v] && enable[v]
                else used[v] == old(used[v]) && highlight[v] == old(highlight[v]) && enable[v] == old(enable[v])
      ensures forall v :: 0 <= v < height && !(lo <= v < lo + n) ==> contents[v][..] == old(contents[v][..])
    {
      Fill(used, lo, n, 0);
      Fill(highlight, lo, n, false);
      Enable(lo, n);
    }

    method RotateContents(from: nat, end: nat, amount: int)
      requires contents.Length == height && amount != 0
      requires from <= end && 0 <= from + amount && end + amount <= height && end <= height
      modifies contents
      ensures forall v :: 0 <= v < height ==> contents[v] == old(contents[Source(from, end, amount, v)])
    {
      if amount > 0 {
        RotateVector(contents, from, end + amount - from, amount);
      } else {
        RotateVector(contents, from + amount, end - from - amount, end - from);
      }
    }

    /** The record's side: rows [from, end) move by `amount`. */
    method ScrollRecord(from: nat, end: nat, amount: int)
      requires Shape() && amount != 0 && from <= end && 0 <= from + amount && end + amount <= height && end <= height
      modifies contents, used, highlight, enable
      ensures forall v :: 0 <= v < height ==> contents[v] == old(contents[Source(from, end, amount, v)])
      ensures forall v :: 0 <= v < height && !Vacated(from, end, amount, v) ==>
                var w := Source(from, end, amount, v);
                used[v] == old(used[w]) && highlight[v] == old(highlight[w]) && enable[v] == old(enable[w])
    {
      RotateContents(from, end, amount);
      SafeBcopy(used, from, from + amount, end - from);
      SafeBcopy(highlight, from, from + amount, end - from);
      SafeBcopy(enable, from, from + amount, end - from);
    }

    /** The record's side of scrolling, all of it. */
    method ScrollEach(from: nat, end: nat, amount: int)
      requires Shape() && amount != 0 && from <= end && 0 <= from + amount && end + amount <= height && end <= height
      modifies contents, contents[..], used, highlight, enable
      ensures Shape()
      ensures forall v :: 0 <= v < height ==> contents[v] == old(contents[Source(from, end, amount, v)])
      ensures forall v :: 0 <= v < height && Vacated(from, end, amount, v) ==> used[v] == 0 && !highlight[v] && enable[v]
      ensures forall v :: 0 <= v < height && !Vacated(from, end, amount, v) ==>
                var w := Source(from, end, amount, v);
                && used[v] == old(used[w]) && highlight[v] == old(highlight[w]) && enable[v] == old(enable[w])
                && contents[v][..] == old(contents[w][..])
    {
      hide Source, Vacated;
      Sources(from, end, amount, height);
      ghost var lines := contents[..];
      ScrollRecord(from, end, amount);
      StillApart(lines, from, end, amount);
      forall v | 0 <= v < height
        ensures contents[v][..] == old(contents[Source(from, end, amount, v)][..]) && contents[v].Length == width + 1
      {
        assert contents[v] == old(contents[Source(from, end, amount, v)]);
      }
      assert Shape();
      var lo, n := if amount > 0 then from else end + amount, if amount > 0 then amount else -amount;
      ghost var moved := contents[..];
      Vacate(lo, n);
      assert forall v :: 0 <= v < height ==> contents[v] == moved[v];
    }

    method ScrollRows(from: nat, end: nat, amount: int)
      requires Shape() && amount != 0 && from <= end && 0 <= from + amount && end + amount <= height && end <= height
      modifies contents, contents[..], used, highlight, enable
      ensures Shape() && Scrolled(old(Now()), Now(), height, from, end, amount)
    {
      hide Source, Vacated;
      ghost var s := Now();
      ScrollEach(from, end, amount);
      ghost var t := Now();
      Sources(from, end, amount, height);
      forall v | 0 <= v < height
        ensures RowScrolled(s, t, height, from, end, amount, v)
      {
        assert t.text[v] == contents[v][..] && t.lines[v] == contents[v];
        assert t.used[v] == used[v] && t.highlight[v] == highlight[v] && t.enable[v] == enable[v];
      }
    }

    /** scroll_screen_lines.  The record still describes the terminal, which has the lines that were
        `amount` rows away; they kept their buffers; the vacated rows are enabled, empty and normal; other
        rows are not touched; and no line buffer is lost or shared. */
    method ScrollScreenLines(from: nat, end: nat, amount: int) returns (done: bool)
      requires Valid() && from <= end && 0 <= from + amount && end + amount <= height && end <= height
      modifies contents, contents[..], used, highlight, enable, terminal
      ensures Valid() && done == lineInsDelOk
      ensures !done ==> Now() == old(Now()) && terminal.rows == old(terminal.rows)
      ensures done ==> Scrolled(old(Now()), Now(), height, from, end, amount)
      ensures done ==> forall v :: 0 <= v < height ==>
                terminal.rows[v] == Moved(old(terminal.rows), from, end, amount, terminal.Blank(), v)
    {
      hide Source, Vacated, Described, Moved, Scrolled;
      if !lineInsDelOk {
        return false;
      }
      ghost var s := Now();
      done := true;
      if amount == 0 {
        Unscrolled(s, terminal.rows, height, from, end, terminal.Blank());
        return;
      }
      if amount > 0 {
        terminal.ScrollDown(from, end, amount);
      } else {
        terminal.ScrollUp(from, end, -amount);
      }
      ScrollRows(from, end, amount);
      Redescribed(s, Now(), old(terminal.rows), terminal.rows, height, width, from, end, amount);
    }
  }
}
