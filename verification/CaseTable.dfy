/** Case tables: the map from each character to the next one with the same translation. */
module CaseTable {
  import opened Common

  type Char = c: int | 0 <= c < 256

  ghost predicate Table(t: seq<Char>) {
    |t| == 256
  }

  ghost predicate Idempotent(t: seq<Char>)
    requires Table(t)
  {
    forall c: Char :: t[t[c]] == t[c]
  }

  // ---- what the loop computes ----

  /** inverse[x] when the characters from `i` up have been dealt with. */
  ghost function Inverse(trt: seq<Char>, i: nat, x: Char): Char
    requires Table(trt) && i <= 256
    decreases 256 - i
  {
    if i == 256 then x
    else
      var q := trt[i];
      if q == i then Inverse(trt, i + 1, x)
      else if x == i then Inverse(trt, i + 1, q)
      else if x == q then i
      else Inverse(trt, i + 1, x)
  }

  ghost function InverseTable(trt: seq<Char>): (r: seq<Char>)
    requires Table(trt)
    ensures Table(r)
  {
    seq(256, x requires 0 <= x < 256 => Inverse(trt, 0, x))
  }

  /** compute_trt_inverse. */
  method ComputeTrtInverse(trt: seq<Char>, inverse: array<Char>)
    requires Table(trt) && inverse.Length == 256
    modifies inverse
    ensures inverse[..] == InverseTable(trt)
  {
    var i := 256;
    while i > 0
      invariant 0 <= i <= 256
      invariant forall k :: i <= k < 256 ==> inverse[k] == k
    {
      i := i - 1;
      inverse[i] := i;
    }
    i := 256;
    while i > 0
      invariant 0 <= i <= 256
      invariant forall x: Char :: inverse[x] == Inverse(trt, i, x)
    {
      i := i - 1;
      var q := trt[i];
      if q != i {
        var c := inverse[q];
        inverse[q] := i;
        inverse[i] := c;
      }
    }
  }

  // ---- cycles ----

  ghost function Iterate(t: seq<Char>, x: Char, n: nat): Char
    requires Table(t)
    decreases n
  {
    if n == 0 then x else Iterate(t, t[x], n - 1)
  }

  ghost predicate Reaches(t: seq<Char>, x: Char, y: Char)
    requires Table(t)
  {
    exists n: nat :: Iterate(t, x, n) == y
  }

  ghost predicate Permutation(t: seq<Char>)
    requires Table(t)
  {
    forall x: Char, y: Char :: t[x] == t[y] ==> x == y
  }

  /** The cycles of `t` are the classes of characters with the same translation. */
  ghost predicate CyclesAreClasses(t: seq<Char>, trt: seq<Char>)
    requires Table(t) && Table(trt)
  {
    Permutation(t) && forall x: Char, y: Char :: Reaches(t, x, y) <==> trt[x] == trt[y]
  }

  lemma Reach(t: seq<Char>, x: Char, y: Char, n: nat)
    requires Table(t) && Iterate(t, x, n) == y
    ensures Reaches(t, x, y)
  {
  }

  lemma {:induction false} IterateOn(t: seq<Char>, x: Char, m: nat, n: nat)
    requires Table(t)
    ensures Iterate(t, x, m + n) == Iterate(t, Iterate(t, x, m), n)
    decreases m
  {
    if m > 0 {
      IterateOn(t, t[x], m - 1, n);
    }
  }

  lemma ReachesOn(t: seq<Char>, x: Char, y: Char, z: Char)
    requires Table(t) && Reaches(t, x, y) && Reaches(t, y, z)
    ensures Reaches(t, x, z)
  {
    var m: nat :| Iterate(t, x, m) == y;
    var n: nat :| Iterate(t, y, n) == z;
    IterateOn(t, x, m, n);
    Reach(t, x, z, m + n);
  }

  lemma ReachesNext(t: seq<Char>, x: Char)
    requires Table(t)
    ensures Reaches(t, x, t[x])
  {
    assert Iterate(t, t[x], 0) == t[x];
    Reach(t, x, t[x], 1);
  }

  // ---- the order of a cycle ----

  ghost predicate Member(trt: seq<Char>, q: Char, c: int)
    requires Table(trt)
  {
    0 <= c < 256 && c != q && trt[c] == q
  }

  /** The first character from `i` on, other than `q`, that is translated to `q`; `q` itself if there is
      none. */
  ghost function Following(trt: seq<Char>, q: Char, i: nat): (c: Char)
    requires Table(trt) && i <= 256
    ensures c != q ==> i <= c && Member(trt, q, c)
    ensures forall k {:trigger Member(trt, q, k)} :: i <= k && (c == q || k < c) ==> !Member(trt, q, k)
    decreases 256 - i
  {
    if i == 256 then q
    else if Member(trt, q, i) then i
    else Following(trt, q, i + 1)
  }

  /** The last character before `i`, other than `q`, that is translated to `q`; `q` itself if there is
      none. */
  ghost function Preceding(trt: seq<Char>, q: Char, i: nat): (c: Char)
    requires Table(trt) && i <= 256
    ensures c != q ==> c < i && Member(trt, q, c)
    ensures forall k {:trigger Member(trt, q, k)} :: k < i && (c == q || c < k) ==> !Member(trt, q, k)
  {
    if i == 0 then q
    else if Member(trt, q, i - 1) then i - 1
    else Preceding(trt, q, i - 1)
  }

  /** For an idempotent table each class is chained in ascending order, from the character all of it is
      translated to. */
  lemma {:induction false} InverseIs(trt: seq<Char>, i: nat, x: Char)
    requires Table(trt) && Idempotent(trt) && i <= 256
    ensures Inverse(trt, i, x) == if trt[x] == x then Following(trt, x, i)
                                  else if x >= i then Following(trt, trt[x], x + 1) else x
    decreases 256 - i
  {
    if i < 256 {
      var q := trt[i];
      assert trt[q] == q;
      InverseIs(trt, i + 1, x);
      InverseIs(trt, i + 1, q);
    }
  }

  lemma InverseAt(trt: seq<Char>, x: Char)
    requires Table(trt) && Idempotent(trt)
    ensures InverseTable(trt)[x] == if trt[x] == x then Following(trt, x, 0) else Following(trt, trt[x], x + 1)
    ensures trt[InverseTable(trt)[x]] == trt[x]
  {
    InverseIs(trt, 0, x);
    assert trt[trt[x]] == trt[x];
  }

  lemma {:induction false} StaysInClass(trt: seq<Char>, x: Char, n: nat)
    requires Table(trt) && Idempotent(trt)
    ensures trt[Iterate(InverseTable(trt), x, n)] == trt[x]
    decreases n
  {
    if n > 0 {
      InverseAt(trt, x);
      StaysInClass(trt, InverseTable(trt)[x], n - 1);
    }
  }

  lemma {:induction false} ReachesRoot(trt: seq<Char>, x: Char)
    requires Table(trt) && Idempotent(trt)
    ensures Reaches(InverseTable(trt), x, trt[x])
    decreases 256 - x
  {
    var t := InverseTable(trt);
    var q := trt[x];
    if x == q {
      Reach(t, x, q, 0);
    } else {
      InverseAt(trt, x);
      ReachesNext(t, x);
      var y := t[x];
      if y != q {
        ReachesRoot(trt, y);
        ReachesOn(t, x, y, q);
      }
    }
  }

  lemma {:induction false} RootReaches(trt: seq<Char>, y: Char)
    requires Table(trt) && Idempotent(trt)
    ensures Reaches(InverseTable(trt), trt[y], y)
    decreases y
  {
    var t := InverseTable(trt);
    var q := trt[y];
    assert trt[q] == q;
    if y == q {
      Reach(t, q, y, 0);
    } else {
      var p := Preceding(trt, q, y);
      InverseAt(trt, p);
      assert Member(trt, q, y);
      assert t[p] == y;
      if p != q {
        RootReaches(trt, p);
        ReachesNext(t, p);
        ReachesOn(t, q, p, y);
      } else {
        ReachesNext(t, q);
      }
    }
  }

  /** What comes before `y` in its cycle. */
  ghost function Before(trt: seq<Char>, y: Char): Char
    requires Table(trt)
  {
    Preceding(trt, trt[y], if y == trt[y] then 256 else y)
  }

  lemma BeforeNext(trt: seq<Char>, x: Char)
    requires Table(trt) && Idempotent(trt)
    ensures Before(trt, InverseTable(trt)[x]) == x
  {
    InverseAt(trt, x);
    var y := InverseTable(trt)[x];
    var q := trt[x];
    assert trt[q] == q;
    var p := Preceding(trt, q, if y == q then 256 else y);
    if x != q {
      assert Member(trt, q, x);
    }
    if p != q {
      assert Member(trt, q, p);
    }
  }

  lemma IdempotentSuffices(trt: seq<Char>)
    requires Table(trt) && Idempotent(trt)
    ensures CyclesAreClasses(InverseTable(trt), trt)
  {
    var t := InverseTable(trt);
    forall x: Char, y: Char | t[x] == t[y]
      ensures x == y
    {
      BeforeNext(trt, x);
      BeforeNext(trt, y);
    }
    forall x: Char, y: Char
      ensures Reaches(t, x, y) <==> trt[x] == trt[y]
    {
      if Reaches(t, x, y) {
        var n: nat :| Iterate(t, x, n) == y;
        StaysInClass(trt, x, n);
      }
      if trt[x] == trt[y] {
        ReachesRoot(trt, x);
        RootReaches(trt, y);
        ReachesOn(t, x, trt[x], y);
      }
    }
  }

  // ---- only idempotent tables ----

  /** Between `lo` and `i` nothing changes what `x` is chained to. */
  lemma {:induction false} InverseKeeps(trt: seq<Char>, x: Char, lo: nat, i: nat)
    requires Table(trt) && lo <= i <= 256 && (x < lo || i <= x)
    requires forall k {:trigger Member(trt, x, k)} :: lo <= k < i ==> !Member(trt, x, k)
    ensures Inverse(trt, lo, x) == Inverse(trt, i, x)
    decreases i - lo
  {
    if lo < i {
      InverseKeeps(trt, x, lo + 1, i);
      assert !Member(trt, x, lo);
    }
  }

  /** If something is translated to `q`, and `q` to something else, some character is chained to one of
      another class. */
  lemma {:induction false} ChainedAstray(trt: seq<Char>, q: Char, c: Char) returns (x: Char)
    requires Table(trt) && trt[c] == q && trt[q] != q
    ensures trt[InverseTable(trt)[x]] != trt[x]
    decreases 256 - q
  {
    var m := Following(trt, q, 0);
    assert Member(trt, q, c);
    if m < q {
      InverseKeeps(trt, q, 0, m);
      x := q;
    } else {
      var last := Preceding(trt, q, 256);
      assert Member(trt, q, m) && Member(trt, q, last);
      var after: nat := last as int + 1;
      InverseKeeps(trt, q, after, 256);
      assert Inverse(trt, last, last) == q;
      var p := Following(trt, last, 0);
      if p == last {
        InverseKeeps(trt, last, 0, last);
        x := last;
      } else {
        x := ChainedAstray(trt, last, p);
      }
    }
  }

  /** compute_trt_inverse divides the characters into circular lists, one for each class, exactly when
      its table is idempotent. */
  lemma ExactlyIdempotent(trt: seq<Char>)
    requires Table(trt)
    ensures CyclesAreClasses(InverseTable(trt), trt) <==> Idempotent(trt)
  {
    if Idempotent(trt) {
      IdempotentSuffices(trt);
    } else {
      var c: Char :| trt[trt[c]] != trt[c];
      var x := ChainedAstray(trt, trt[c], c);
      ReachesNext(InverseTable(trt), x);
    }
  }

  // ---- case tables ----

  /** DOWN, UP, CANON and EQV. */
  datatype Tables = Tables(down: seq<Char>, up: seq<Char>, canon: seq<Char>, eqv: seq<Char>)

  /** case-table-p, of a list of four strings or nils. */
  predicate CaseTableP(down: seq<Char>, up: Option<seq<Char>>, canon: Option<seq<Char>>, eqv: Option<seq<Char>>) {
    && |down| == 256
    && (up.Some? ==> |up.value| == 256)
    && if canon.None? && eqv.None? then true else canon.Some? && eqv.Some? && |canon.value| == 256 && |eqv.value| == 256
  }

  ghost function Canonical(down: seq<Char>, up: seq<Char>): (r: seq<Char>)
    requires Table(down) && Table(up)
    ensures Table(r)
  {
    seq(256, i requires 0 <= i < 256 => down[up[down[i]]])
  }

  /** The four tables that a case table stands for. */
  ghost function Completed(down: seq<Char>, up: Option<seq<Char>>, canon: Option<seq<Char>>,
                           eqv: Option<seq<Char>>): Tables
    requires CaseTableP(down, up, canon, eqv)
  {
    var u := if up.Some? then up.value else InverseTable(down);
    var k := if canon.Some? then canon.value else Canonical(down, u);
    Tables(down, u, k, if canon.Some? then eqv.value else InverseTable(k))
  }

  /** CANON deduced from DOWN and UP: it goes down, up and down again, it does not tell apart what DOWN does not, and it
      is DOWN just if going up is undone by going down. */
  ghost predicate Deduces(down: seq<Char>, up: seq<Char>, canon: seq<Char>)
    requires Table(down) && Table(up) && Table(canon)
  {
    && (forall c: Char :: canon[c] == down[up[down[c]]])
    && (forall c: Char, d: Char :: down[c] == down[d] ==> canon[c] == canon[d])
    && ((forall c: Char :: down[up[down[c]]] == down[c]) <==> canon == down)
  }

  /** What set_case_table makes of the tables given, table by table. */
  ghost predicate Completes(t: Tables, down: seq<Char>, up: Option<seq<Char>>, canon: Option<seq<Char>>,
                            eqv: Option<seq<Char>>) {
    && Table(t.down) && Table(t.up) && Table(t.canon) && Table(t.eqv)
    && t.down == down
    && (up.Some? ==> t.up == up.value)
    && (up.None? ==> (CyclesAreClasses(t.up, down) <==> Idempotent(down)))
    && (canon.Some? && eqv.Some? ==> t.canon == canon.value && t.eqv == eqv.value)
    && (canon.None? ==>
          && Deduces(down, t.up, t.canon)
          && (CyclesAreClasses(t.eqv, t.canon) <==> Idempotent(t.canon)))
  }

  lemma CompletedCompletes(down: seq<Char>, up: Option<seq<Char>>, canon: Option<seq<Char>>, eqv: Option<seq<Char>>)
    requires CaseTableP(down, up, canon, eqv)
    ensures Completes(Completed(down, up, canon, eqv), down, up, canon, eqv)
  {
    hide CyclesAreClasses, Idempotent, InverseTable, Canonical, Deduces;
    InverseIsTable(down);
    ExactlyIdempotent(down);
    if canon.None? {
      var t := Completed(down, up, canon, eqv);
      CanonicalIs(down, t.up);
      InverseIsTable(t.canon);
      ExactlyIdempotent(t.canon);
    }
  }

  lemma CanonicalIs(down: seq<Char>, up: seq<Char>)
    requires Table(down) && Table(up)
    ensures Table(Canonical(down, up)) && Deduces(down, up, Canonical(down, up))
  {
    var k := Canonical(down, up);
    assert forall c: Char :: k[c] == down[up[down[c]]];
    if forall c: Char :: down[up[down[c]]] == down[c] {
      assert k == down;
    }
  }

  lemma InverseIsTable(t: seq<Char>)
    requires Table(t)
    ensures Table(InverseTable(t))
  {
  }

  class CaseTables {
    var ascii: Tables     // the standard ones
    var buffer: Tables    // the current buffer's

    /** init_casetab_once. */
    constructor ()
      ensures ascii == Tables(ASCII_DOWN, ASCII_UP, ASCII_DOWN, ASCII_UP) && buffer == ascii
    {
      ascii := Tables(ASCII_DOWN, ASCII_UP, ASCII_DOWN, ASCII_UP);
      buffer := Tables(ASCII_DOWN, ASCII_UP, ASCII_DOWN, ASCII_UP);
    }

    /** set_case_table.  False, and nothing changed, if this is not a case table. */
    method SetCaseTable(down: seq<Char>, up: Option<seq<Char>>, canon: Option<seq<Char>>, eqv: Option<seq<Char>>,
                        standard: bool)
        returns (ok: bool)
      modifies this
      ensures ok == CaseTableP(down, up, canon, eqv)
      ensures !ok ==> ascii == old(ascii) && buffer == old(buffer)
      ensures ok && standard ==> ascii == Completed(down, up, canon, eqv) && buffer == old(buffer)
      ensures ok && !standard ==> buffer == Completed(down, up, canon, eqv) && ascii == old(ascii)
      ensures ok ==> Completes(if standard then ascii else buffer, down, up, canon, eqv)
    {
      hide Completes, CyclesAreClasses, Idempotent;
      ok := CaseTableP(down, up, canon, eqv);
      if !ok {
        return;
      }
      var u: seq<Char>;
      if up.Some? {
        u := up.value;
      } else {
        var inverse := new Char[256];
        ComputeTrtInverse(down, inverse);
        u := inverse[..];
      }
      var k: seq<Char>, e: seq<Char>;
      if canon.Some? {
        k, e := canon.value, eqv.value;
      } else {
        var vec := new Char[256];
        for i := 0 to 256
          invariant forall j :: 0 <= j < i ==> vec[j] == down[u[down[j]]]
          invariant ascii == old(ascii) && buffer == old(buffer)
        {
          vec[i] := down[u[down[i]]];
        }
        k := vec[..];
        assert k == Canonical(down, u);
        var inverse := new Char[256];
        ComputeTrtInverse(k, inverse);
        e := inverse[..];
      }
      if standard {
        ascii := Tables(down, u, k, e);
      } else {
        buffer := Tables(down, u, k, e);
      }
      CompletedCompletes(down, up, canon, eqv);
    }
  }

  predicate Upper(c: int) {
    'A' as int <= c <= 'Z' as int
  }

  const ASCII_DOWN: seq<Char> := seq(256, i requires 0 <= i < 256 => if Upper(i) then i + 32 else i)

  const ASCII_UP: seq<Char> :=
    seq(256, i requires 0 <= i < 256 => if Upper(i) then i + 32 else if Upper(i - 32) then i - 32 else i)

  /** When the other tables are deduced from an idempotent DOWN, CANON is DOWN and EQV is UP; UP goes
      round each class of characters with the same lower case, so that down-casing undoes it. */
  lemma Deduced(down: seq<Char>)
    requires Table(down) && Idempotent(down)
    ensures var t := Completed(down, None, None, None);
            && t.canon == down && t.eqv == t.up && CyclesAreClasses(t.up, down)
            && forall c: Char :: t.down[t.up[c]] == t.down[c]
  {
    IdempotentSuffices(down);
    var up := InverseTable(down);
    forall c: Char
      ensures down[up[c]] == down[c] && Canonical(down, up)[c] == down[c]
    {
      InverseAt(down, c);
      InverseAt(down, down[c]);
      assert down[down[c]] == down[c];
    }
    assert Canonical(down, up) == down;
  }

  lemma AsciiMember(q: Char, k: int)
    ensures Member(ASCII_DOWN, q, k) <==> Upper(k) && q == k + 32
  {
  }

  lemma AsciiInverse(c: Char)
    requires Idempotent(ASCII_DOWN)
    ensures InverseTable(ASCII_DOWN)[c] == ASCII_UP[c]
  {
    InverseAt(ASCII_DOWN, c);
    AsciiLoop(c);
  }

  lemma AsciiLoop(c: Char)
    ensures (if ASCII_DOWN[c] == c then Following(ASCII_DOWN, c, 0) else Following(ASCII_DOWN, ASCII_DOWN[c], c + 1)) == ASCII_UP[c]
  {
    AsciiMember(ASCII_DOWN[c], ASCII_UP[c]);
    AsciiMember(ASCII_DOWN[c], Following(ASCII_DOWN, ASCII_DOWN[c], if ASCII_DOWN[c] == c then 0 else c + 1));
  }

  /** The built-in tables are the ones deduced from the built-in DOWN. */
  lemma AsciiDeduced()
    ensures Completed(ASCII_DOWN, None, None, None) == Tables(ASCII_DOWN, ASCII_UP, ASCII_DOWN, ASCII_UP)
  {
    assert Idempotent(ASCII_DOWN);
    Deduced(ASCII_DOWN);
    forall c: Char
      ensures InverseTable(ASCII_DOWN)[c] == ASCII_UP[c]
    {
      AsciiInverse(c);
    }
    assert InverseTable(ASCII_DOWN) == ASCII_UP;
  }
}
