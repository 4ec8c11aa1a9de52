/** Bringing one line of a terminal up to date: update_line and the operations it emits. */
module UpdateLine {
  import opened Common

  type Glyph = nat

  const SPACE: Glyph := 32

  function Blanks(n: nat): (s: seq<Glyph>)
    ensures |s| == n && forall i :: 0 <= i < n ==> s[i] == SPACE
  {
    seq(n, _ => SPACE)
  }

  ghost predicate AllBlank(s: seq<Glyph>) {
    forall i :: 0 <= i < |s| ==> s[i] == SPACE
  }

  /** `text` followed by blanks up to the screen width. */
  function Padded(text: seq<Glyph>, width: nat): seq<Glyph>
    requires |text| <= width
  {
    text + Blanks(width - |text|)
  }

  // ---- what the terminal does ----

  function Overwrite(row: seq<Glyph>, c: nat, s: seq<Glyph>): (r: seq<Glyph>)
    requires c + |s| <= |row|
    ensures |r| == |row|
    ensures forall i :: 0 <= i < |row| ==> r[i] == if c <= i < c + |s| then s[i - c] else row[i]
  {
    row[..c] + s + row[c + |s|..]
  }

  function Insert(row: seq<Glyph>, c: nat, s: seq<Glyph>): (r: seq<Glyph>)
    requires c + |s| <= |row|
    ensures |r| == |row|
    ensures forall i :: 0 <= i < |row| ==>
              r[i] == if i < c then row[i] else if i < c + |s| then s[i - c] else row[i - |s|]
  {
    row[..c] + s + row[c..|row| - |s|]
  }

  function Delete(row: seq<Glyph>, c: nat, n: nat): (r: seq<Glyph>)
    requires c + n <= |row|
    ensures |r| == |row|
    ensures forall i :: 0 <= i < |row| ==>
              r[i] == if i < c then row[i] else if i + n < |row| then row[i + n] else SPACE
  {
    row[..c] + row[c + n..] + Blanks(n)
  }

  class Terminal {
    const width: nat
    var row: seq<Glyph>
    var col: nat

    ghost predicate Valid()
      reads this
    {
      |row| == width && col <= width
    }

    constructor (width: nat)
      ensures Valid() && this.width == width && row == Blanks(width)
    {
      this.width := width;
      row := Blanks(width);
      col := 0;
    }

    method MoveCursor(c: nat)
      requires Valid() && c <= width
      modifies this`col
      ensures Valid() && col == c
    {
      col := c;
    }

    method OutputChars(s: seq<Glyph>)
      requires Valid() && col + |s| <= width
      modifies this
      ensures Valid() && row == Overwrite(old(row), old(col), s) && col == old(col) + |s|
    {
      row := Overwrite(row, col, s);
      col := col + |s|;
    }

    method InsertChars(s: seq<Glyph>)
      requires Valid() && col + |s| <= width
      modifies this
      ensures Valid() && row == Insert(old(row), old(col), s) && col == old(col) + |s|
    {
      row := Insert(row, col, s);
      col := col + |s|;
    }

    method DeleteChars(n: nat)
      requires Valid() && col + n <= width
      modifies this`row
      ensures Valid() && row == Delete(old(row), col, n)
    {
      row := Delete(row, col, n);
    }

    /** Clear to the end of the line, which is known to be clear from `firstUnused` on. */
    method ClearEndOfLine(firstUnused: nat)
      requires Valid()
      requires forall i :: firstUnused <= i < width ==> row[i] == SPACE
      modifies this`row
      ensures Valid() && row == old(row)[..col] + Blanks(width - col)
    {
      if col < firstUnused {
        row := row[..col] + Blanks(width - col);
      }
      assert row == old(row)[..col] + Blanks(width - col);
    }
  }

  // ---- the edit script ----

  /** What update_line finds out about the old text `o` and the new text `n`: their leading blanks,
      how much after them agrees, where text past the end of `o` counts as blank, and how much
      agrees at the ends. */
  ghost predicate Plan(o: seq<Glyph>, n: seq<Glyph>, osp: nat, nsp: nat, begmatch: nat, endmatch: nat) {
    && osp <= |o| && nsp + begmatch <= |n|
    && (forall i :: 0 <= i < osp ==> o[i] == SPACE)
    && (forall i :: 0 <= i < nsp ==> n[i] == SPACE)
    && (forall j :: nsp <= j < nsp + begmatch ==>
          n[j] == if j - nsp + osp < |o| then o[j - nsp + osp] else SPACE)
    && (endmatch > 0 ==> osp + begmatch + endmatch <= |o| && nsp + begmatch + endmatch <= |n|)
    && (forall j :: |n| - endmatch <= j < |n| ==> n[j] == o[j + |o| - |n|])
  }

  /** The row once the leading blanks agree and `olen` is where its text ends. */
  ghost predicate Aligned(row: seq<Glyph>, n: seq<Glyph>, nsp: nat, begmatch: nat, endmatch: nat, olen: nat) {
    && |n| <= |row| && nsp + begmatch + endmatch <= |n|
    && (forall i :: 0 <= i < nsp + begmatch ==> row[i] == n[i])
    && (endmatch > 0 ==> nsp + begmatch + endmatch <= olen <= |row|)
    && (forall j :: |n| - endmatch <= j < |n| ==> row[j + olen - |n|] == n[j])
    && (forall i :: olen <= i < |row| ==> row[i] == SPACE)
  }

  // Each lemma: one branch of the script does what it is meant to do to the row.

  lemma AlignByDeleting(o: seq<Glyph>, n: seq<Glyph>, osp: nat, nsp: nat, begmatch: nat, endmatch: nat, row: seq<Glyph>)
    requires |o| <= |row| && |n| <= |row| && Plan(o, n, osp, nsp, begmatch, endmatch) && osp > nsp
    requires forall i :: 0 <= i < |row| ==> row[i] == if i < |o| then o[i] else SPACE
    ensures Aligned(Delete(row, nsp, osp - nsp), n, nsp, begmatch, endmatch, |o| - (osp - nsp))
  {
  }

  lemma AlignByInserting(o: seq<Glyph>, n: seq<Glyph>, osp: nat, nsp: nat, begmatch: nat, endmatch: nat,
                         row: seq<Glyph>, olen: nat)
    requires |o| <= |row| && |n| <= |row| && Plan(o, n, osp, nsp, begmatch, endmatch) && nsp > osp
    requires forall i :: 0 <= i < |row| && (i < osp + begmatch || endmatch == 0) ==> row[i] == if i < |o| then o[i] else SPACE
    requires if endmatch == 0 then olen == |o| else osp + begmatch + endmatch <= olen <= |row| - (nsp - osp)
    requires forall j :: |n| - endmatch <= j < |n| ==> row[j + olen - |n|] == n[j]
    requires forall i :: olen <= i < |row| ==> row[i] == SPACE
    ensures Aligned(Insert(row, osp, Blanks(nsp - osp)), n, nsp, begmatch, endmatch, olen + (nsp - osp))
  {
  }

  lemma MakeRoom(o: seq<Glyph>, n: seq<Glyph>, osp: nat, nsp: nat, begmatch: nat, endmatch: nat, row: seq<Glyph>)
    requires |o| <= |row| && |n| <= |row| && Plan(o, n, osp, nsp, begmatch, endmatch) && nsp > osp
    requires forall i :: 0 <= i < |row| ==> row[i] == if i < |o| then o[i] else SPACE
    requires endmatch > 0 && |n| < |o| + nsp - osp
    ensures |n| - endmatch + osp - nsp >= osp + begmatch
    ensures var olen := |n| - (nsp - osp);
            var row' := Delete(row, |n| - endmatch + osp - nsp, |o| + nsp - osp - |n|);
            && (forall i :: 0 <= i < osp + begmatch ==> row'[i] == o[i])
            && (forall j :: |n| - endmatch <= j < |n| ==> row'[j + olen - |n|] == n[j])
            && (forall i :: olen <= i < |row| ==> row'[i] == SPACE)
  {
  }

  /** First half of the script: make the leading blanks agree. */
  method AlignBlanks(t: Terminal, o: seq<Glyph>, n: seq<Glyph>, osp: nat, nsp: nat, begmatch: nat, endmatch: nat)
      returns (olen: nat)
    requires t.Valid() && |o| <= t.width && |n| <= t.width && t.row == Padded(o, t.width)
    requires Plan(o, n, osp, nsp, begmatch, endmatch)
    modifies t
    ensures t.Valid() && Aligned(t.row, n, nsp, begmatch, endmatch, olen)
  {
    hide Delete, Insert, Blanks, Aligned;
    olen := |o|;
    if osp > nsp {
      AlignByDeleting(o, n, osp, nsp, begmatch, endmatch, t.row);
      t.MoveCursor(nsp);
      t.DeleteChars(osp - nsp);
      olen := olen - (osp - nsp);
    } else if nsp > osp {
      if endmatch > 0 && |n| < olen + nsp - osp {
        MakeRoom(o, n, osp, nsp, begmatch, endmatch, t.row);
        t.MoveCursor(|n| - endmatch + osp - nsp);
        t.DeleteChars(olen + nsp - osp - |n|);
        olen := |n| - (nsp - osp);
      }
      AlignByInserting(o, n, osp, nsp, begmatch, endmatch, t.row, olen);
      t.MoveCursor(osp);
      t.InsertChars(Blanks(nsp - osp));
      olen := olen + (nsp - osp);
    } else {
      AlignedAlready(o, n, nsp, begmatch, endmatch, t.row);
    }
  }

  lemma AlignedAlready(o: seq<Glyph>, n: seq<Glyph>, nsp: nat, begmatch: nat, endmatch: nat, row: seq<Glyph>)
    requires |o| <= |row| && |n| <= |row| && Plan(o, n, nsp, nsp, begmatch, endmatch)
    requires forall i :: 0 <= i < |row| ==> row[i] == if i < |o| then o[i] else SPACE
    ensures Aligned(row, n, nsp, begmatch, endmatch, |o|)
  {
  }

  /** The row shows `n`, with blanks after both `n` and `olen`. */
  ghost predicate Written(row: seq<Glyph>, n: seq<Glyph>, olen: nat) {
    && |n| <= |row|
    && (forall i :: 0 <= i < |n| ==> row[i] == n[i])
    && (forall i :: |n| <= i < |row| && i >= olen ==> row[i] == SPACE)
  }

  lemma WriteAll(row: seq<Glyph>, n: seq<Glyph>, nsp: nat, begmatch: nat, endmatch: nat, olen: nat)
    requires Aligned(row, n, nsp, begmatch, endmatch, olen) && (endmatch == 0 || |n| == olen)
    ensures Written(Overwrite(row, nsp + begmatch, n[nsp + begmatch..|n| - endmatch]), n, olen)
  {
  }

  lemma WriteAndInsert(row: seq<Glyph>, n: seq<Glyph>, nsp: nat, begmatch: nat, endmatch: nat, olen: nat)
    requires Aligned(row, n, nsp, begmatch, endmatch, olen) && endmatch > 0 && |n| > olen
    ensures var k := olen - endmatch;
            Written(Insert(Overwrite(row, nsp + begmatch, n[nsp + begmatch..k]), k, n[k..k + (|n| - olen)]), n, |n|)
  {
  }

  lemma WriteAndDelete(row: seq<Glyph>, n: seq<Glyph>, nsp: nat, begmatch: nat, endmatch: nat, olen: nat)
    requires Aligned(row, n, nsp, begmatch, endmatch, olen) && endmatch > 0 && |n| < olen
    ensures Written(Delete(Overwrite(row, nsp + begmatch, n[nsp + begmatch..|n| - endmatch]), |n| - endmatch, olen - |n|), n, |n|)
  {
  }

  /** Second half: write what differs, opening or closing the gap before the matching end. */
  method WriteMiddle(t: Terminal, n: seq<Glyph>, nsp: nat, begmatch: nat, endmatch: nat, olen0: nat) returns (olen: nat)
    requires t.Valid() && Aligned(t.row, n, nsp, begmatch, endmatch, olen0)
    modifies t
    ensures t.Valid() && Written(t.row, n, olen)
  {
    hide Overwrite, Insert, Delete;
    olen := olen0;
    var tem := nsp + begmatch + endmatch;
    if |n| != tem || olen != tem {
      t.MoveCursor(nsp + begmatch);
      if endmatch == 0 || |n| == olen {
        WriteAll(t.row, n, nsp, begmatch, endmatch, olen);
        if |n| == t.width {
          olen := 0;
        }
        t.OutputChars(n[nsp + begmatch..|n| - endmatch]);
      } else if |n| > olen {
        WriteAndInsert(t.row, n, nsp, begmatch, endmatch, olen);
        var k := olen - endmatch;
        t.OutputChars(n[nsp + begmatch..k]);
        t.InsertChars(n[k..k + (|n| - olen)]);
        olen := |n|;
      } else {
        WriteAndDelete(t.row, n, nsp, begmatch, endmatch, olen);
        t.OutputChars(n[nsp + begmatch..|n| - endmatch]);
        t.DeleteChars(olen - |n|);
        olen := |n|;
      }
    }
  }

  // ---- looking at the two lines ----

  const O_END: Glyph := 1   // put after the old text
  const N_END: Glyph := 0   // put after the new text

  /** Text without the two sentinel codes. */
  ghost predicate Clean(text: seq<Glyph>) {
    forall i :: 0 <= i < |text| ==> text[i] != O_END && text[i] != N_END
  }

  /** The length of the text without trailing blanks.  (In the source the old line relies on a null
      kept in front of it instead of testing for length 0.) */
  method TrimBlanks(a: array<Glyph>, used: nat) returns (len: nat)
    requires used <= a.Length
    ensures len <= used && AllBlank(a[len..used])
    ensures len > 0 ==> a[len - 1] != SPACE
  {
    len := used;
    while len > 0 && a[len - 1] == SPACE
      invariant len <= used && AllBlank(a[len..used])
    {
      len := len - 1;
    }
  }

  method CountBlanks(a: array<Glyph>, ghost stop: nat) returns (n: nat)
    requires stop < a.Length && a[stop] != SPACE
    ensures n <= stop && forall i :: 0 <= i < n ==> a[i] == SPACE
    ensures a[n] != SPACE
  {
    n := 0;
    while a[n] == SPACE
      invariant n <= stop && forall i :: 0 <= i < n ==> a[i] == SPACE
      decreases stop - n
    {
      n := n + 1;
    }
  }

  method CountMatch(a: array<Glyph>, i: nat, b: array<Glyph>, j: nat, ghost stop: nat) returns (m: nat)
    requires i + stop < a.Length && j + stop < b.Length && a[i + stop] != b[j + stop]
    ensures m <= stop && forall k :: j <= k < j + m ==> b[k] == a[k - j + i]
    ensures a[i + m] != b[j + m]
  {
    m := 0;
    while a[i + m] == b[j + m]
      invariant m <= stop && forall k :: j <= k < j + m ==> b[k] == a[k - j + i]
      decreases stop - m
    {
      m := m + 1;
    }
  }

  /** How many glyphs agree at the ends, not counting the first `begmatch` after the blanks. */
  method CountEndMatch(obody: array<Glyph>, olen: nat, osp: nat, nbody: array<Glyph>, nlen: nat, nsp: nat,
                       begmatch: nat)
      returns (endmatch: nat)
    requires osp <= olen <= obody.Length && nsp <= nlen <= nbody.Length
    ensures endmatch > 0 ==> osp + begmatch + endmatch <= olen && nsp + begmatch + endmatch <= nlen
    ensures forall j :: nlen - endmatch <= j < nlen ==> nbody[j] == obody[j + olen - nlen]
  {
    var op1, np1 := olen, nlen;
    var op2 := olen + begmatch - Min(olen - osp, nlen - nsp);
    while op1 > op2 && obody[op1 - 1] == nbody[np1 - 1]
      invariant np1 == nlen - (olen - op1) && op1 <= olen
      invariant op1 < olen ==> op2 <= op1
      invariant forall j :: np1 <= j < nlen ==> nbody[j] == obody[j + olen - nlen]
    {
      op1 := op1 - 1;
      np1 := np1 - 1;
    }
    endmatch := olen - op1;
  }

  /** The leading blanks and the match after them; both sentinels are in place. */
  method MatchStart(obody: array<Glyph>, olen: nat, nbody: array<Glyph>, nlen: nat)
      returns (osp: nat, nsp: nat, begmatch: nat)
    requires 0 < olen < obody.Length && 0 < nlen < nbody.Length
    requires obody[olen - 1] != SPACE && nbody[nlen - 1] != SPACE
    requires Clean(obody[..olen]) && Clean(nbody[..nlen])
    requires obody[olen] == O_END && nbody[nlen] == N_END
    ensures Plan(obody[..olen], nbody[..nlen], osp, nsp, begmatch, 0)
  {
    osp := CountBlanks(obody, olen - 1);
    nsp := CountBlanks(nbody, nlen - 1);
    ghost var stop := Min(olen - osp, nlen - nsp);
    Sentinels(obody[..], olen, nbody[..], nlen, osp, nsp, stop);
    begmatch := CountMatch(obody, osp, nbody, nsp, stop);
    // spaces in new match implicit space past the end of old
    if osp + begmatch == olen {
      while nbody[nsp + begmatch] == SPACE
        invariant nsp + begmatch <= nlen
        invariant forall j :: nsp <= j < nsp + begmatch ==>
                    nbody[j] == if j - nsp + osp < olen then obody[j - nsp + osp] else SPACE
        decreases nlen - begmatch
      {
        begmatch := begmatch + 1;
      }
    }
    if begmatch == 0 && osp != nsp {
      osp := Min(osp, nsp);
      nsp := osp;
    }
  }

  /** The sentinels end the match where the shorter text ends. */
  lemma Sentinels(o: seq<Glyph>, olen: nat, n: seq<Glyph>, nlen: nat, osp: nat, nsp: nat, stop: nat)
    requires olen < |o| && nlen < |n| && Clean(o[..olen]) && Clean(n[..nlen])
    requires o[olen] == O_END && n[nlen] == N_END
    requires osp <= olen && nsp <= nlen && stop == Min(olen - osp, nlen - nsp)
    ensures o[osp + stop] != n[nsp + stop]
  {
    assert osp + stop < olen ==> o[..olen][osp + stop] == o[osp + stop];
    assert nsp + stop < nlen ==> n[..nlen][nsp + stop] == n[nsp + stop];
  }

  /** Give up a match whose insertions or deletions cost more than it saves. */
  method Weigh(ghost o: seq<Glyph>, ghost n: seq<Glyph>, olen: nat, nlen: nat,
               osp0: nat, nsp0: nat, begmatch0: nat, endmatch0: nat, cost: int -> int)
      returns (osp: nat, nsp: nat, begmatch: nat, endmatch: nat)
    requires |o| == olen && |n| == nlen && Plan(o, n, osp0, nsp0, begmatch0, endmatch0)
    ensures Plan(o, n, osp, nsp, begmatch, endmatch)
  {
    osp, nsp, begmatch, endmatch := osp0, nsp0, begmatch0, endmatch0;
    var tem := (nlen - nsp) - (olen - osp);
    if endmatch > 0 && tem != 0 && endmatch <= cost(tem) {
      endmatch := 0;
    }
    if begmatch + endmatch > 0 && nsp != osp && begmatch + endmatch <= cost(nsp - osp) {
      begmatch := 0;
      endmatch := 0;
      osp := Min(osp, nsp);
      nsp := osp;
    }
  }

  /** The part of update_line that decides what to do.  The ends of both texts carry sentinels while
      it looks; afterwards the new line is as it was. */
  method FindPlan(obody: array<Glyph>, olen: nat, nbody: array<Glyph>, nlen: nat, cost: int -> int)
      returns (osp: nat, nsp: nat, begmatch: nat, endmatch: nat)
    requires obody != nbody && 0 < olen < obody.Length && 0 < nlen < nbody.Length
    requires obody[olen - 1] != SPACE && nbody[nlen - 1] != SPACE
    requires Clean(obody[..olen]) && Clean(nbody[..nlen])
    modifies obody, nbody
    ensures nbody[..] == old(nbody[..])
    ensures obody[..] == old(obody[..])[olen := N_END]
    ensures Plan(obody[..olen], nbody[..nlen], osp, nsp, begmatch, endmatch)
  {
    hide Clean, Plan;
    ghost var o, n := obody[..olen], nbody[..nlen];
    obody[olen] := O_END;
    var save := nbody[nlen];
    nbody[nlen] := N_END;
    assert obody[..olen] == o && nbody[..nlen] == n;
    osp, nsp, begmatch := MatchStart(obody, olen, nbody, nlen);
    PlanBounds(o, n, osp, nsp, begmatch);
    endmatch := CountEndMatch(obody, olen, osp, nbody, nlen, nsp, begmatch);
    PlanEnd(o, n, osp, nsp, begmatch, endmatch);
    nbody[nlen] := save;
    obody[olen] := N_END;
    osp, nsp, begmatch, endmatch := Weigh(o, n, olen, nlen, osp, nsp, begmatch, endmatch, cost);
    assert obody[..olen] == o && nbody[..nlen] == n;
  }

  lemma PlanBounds(o: seq<Glyph>, n: seq<Glyph>, osp: nat, nsp: nat, begmatch: nat)
    requires Plan(o, n, osp, nsp, begmatch, 0)
    ensures osp <= |o| && nsp <= |n|
  {
  }

  lemma PlanEnd(o: seq<Glyph>, n: seq<Glyph>, osp: nat, nsp: nat, begmatch: nat, endmatch: nat)
    requires Plan(o, n, osp, nsp, begmatch, 0)
    requires endmatch > 0 ==> osp + begmatch + endmatch <= |o| && nsp + begmatch + endmatch <= |n|
    requires forall j :: |n| - endmatch <= j < |n| ==> n[j] == o[j + |o| - |n|]
    ensures Plan(o, n, osp, nsp, begmatch, endmatch)
  {
  }

  // ---- the whole of update_line ----

  /** One line of a screen matrix: current_screen or new_screen at one vpos. */
  class Line {
    var contents: array<Glyph>
    var used: nat
    var enable: bool

    constructor (width: nat)
      ensures fresh(contents) && contents.Length == width + 1 && used == 0 && !enable
    {
      contents := new Glyph[width + 1](_ => 0);
      used, enable := 0, false;
    }

    ghost predicate Ok(width: nat)
      reads this, contents
    {
      contents.Length == width + 1 && used <= width && Clean(contents[..used])
    }

    /** The line says what the row shows. */
    ghost predicate Describes(row: seq<Glyph>)
      reads this, contents
    {
      used < contents.Length && used <= |row| && row == Padded(contents[..used], |row|)
    }
  }

  /** Without insert and delete character: write each run of glyphs that differ. */
  method OverwriteRuns(t: Terminal, nbody: array<Glyph>, nlen: nat, obody: array<Glyph>, olen: nat)
    requires t.Valid() && nlen <= t.width && nlen <= nbody.Length && olen <= obody.Length
    requires forall k :: 0 <= k < olen && k < t.width ==> t.row[k] == obody[k]
    modifies t
    ensures t.Valid()
    ensures forall k :: 0 <= k < nlen ==> t.row[k] == nbody[k]
    ensures forall k :: nlen <= k < t.width ==> t.row[k] == old(t.row[k])
  {
    var i := 0;
    while i < nlen
      invariant i <= nlen && t.Valid()
      invariant forall k :: 0 <= k < i ==> t.row[k] == nbody[k]
      invariant forall k :: i <= k < t.width ==> t.row[k] == old(t.row[k])
    {
      if i >= olen || nbody[i] != obody[i] {
        t.MoveCursor(i);
        var j := 1;
        while i + j < nlen && (i + j >= olen || nbody[i + j] != obody[i + j])
          invariant 1 <= j && i + j <= nlen
        {
          j := j + 1;
        }
        t.OutputChars(nbody[i..i + j]);
        i := i + j - 1;
      }
      i := i + 1;
    }
  }

  lemma PaddedAt(text: seq<Glyph>, width: nat, row: seq<Glyph>)
    requires |text| <= width == |row|
    ensures row == Padded(text, width) <==> forall i :: 0 <= i < width ==> row[i] == if i < |text| then text[i] else SPACE
  {
  }

  /** Text and text without its trailing blanks look the same. */
  lemma PaddedTrimmed(text: seq<Glyph>, len: nat, width: nat)
    requires len <= |text| <= width && AllBlank(text[len..])
    ensures Padded(text[..len], width) == Padded(text, width)
  {
    assert forall i :: len <= i < |text| ==> text[i] == text[len..][i - len];
  }

  lemma PaddedBlank(text: seq<Glyph>, width: nat)
    requires |text| <= width
    ensures Padded(text, width) == Blanks(width) <==> AllBlank(text)
  {
    if Padded(text, width) == Blanks(width) {
      forall i | 0 <= i < |text| ensures text[i] == SPACE {
        assert text[i] == Padded(text, width)[i];
      }
    }
  }

  /** The last step: blanks from the end of the new text on. */
  method JustErase(t: Terminal, ghost text: seq<Glyph>, nlen: nat, olen: nat)
    requires t.Valid() && |text| == nlen && Written(t.row, text, olen)
    modifies t
    ensures t.Valid() && t.row == Padded(text, t.width)
  {
    if olen > nlen {
      t.MoveCursor(nlen);
      t.ClearEndOfLine(olen);
    }
  }

  /** Make the row show the new text `nbody[..nlen]`, which does not end in a blank. */
  method WriteText(t: Terminal, obody: array<Glyph>, olen0: nat, nbody: array<Glyph>, nlen: nat,
                   charInsDelOk: bool, cost: int -> int)
      returns (olen: nat)
    requires t.Valid() && obody != nbody && obody.Length == nbody.Length == t.width + 1
    requires olen0 <= t.width && 0 < nlen <= t.width
    requires Clean(obody[..olen0]) && Clean(nbody[..nlen])
    requires olen0 > 0 ==> obody[olen0 - 1] != SPACE
    requires nbody[nlen - 1] != SPACE
    requires t.row == Padded(obody[..olen0], t.width)
    modifies t, obody, nbody
    ensures t.Valid() && nbody[..] == old(nbody[..])
    ensures Written(t.row, nbody[..nlen], olen)
  {
    olen := olen0;
    PaddedAt(obody[..olen0], t.width, t.row);
    if !charInsDelOk {
      OverwriteRuns(t, nbody, nlen, obody, olen);
    } else if olen == 0 {
      var nsp := CountBlanks(nbody, nlen - 1);
      if nlen > nsp {
        t.MoveCursor(nsp);
        t.OutputChars(nbody[nsp..nlen]);
      }
    } else {
      var osp, nsp, begmatch, endmatch := FindPlan(obody, olen, nbody, nlen, cost);
      olen := AlignBlanks(t, obody[..olen], nbody[..nlen], osp, nsp, begmatch, endmatch);
      olen := WriteMiddle(t, nbody[..nlen], nsp, begmatch, endmatch, olen);
    }
  }

  /** update_line, for a line that is not highlighted.  Whatever the two lines are and whatever the
      cost table says, the row ends up showing the new text and the screen record describes it.
      If there is no new text (the new line is not enabled) the row is cleared, but the record takes
      over the new line's contents, and describes the row only if those are blank. */
  method UpdateLine(cur: Line, new_: Line, t: Terminal, charInsDelOk: bool, cost: int -> int)
    requires cur != new_ && cur.contents != new_.contents && t.Valid()
    requires cur.Ok(t.width) && new_.Ok(t.width)
    requires if cur.enable then cur.Describes(t.row) else t.row == Blanks(t.width)
    modifies t, cur, new_`contents, cur.contents, new_.contents
    ensures t.Valid() && cur.enable && cur.used == new_.used
    ensures cur.contents == old(new_.contents) && new_.contents == old(cur.contents)
    ensures cur.contents[..] == old(new_.contents[..])
    ensures new_.enable ==> t.row == Padded(old(new_.contents[..new_.used]), t.width) && cur.Describes(t.row)
    ensures !new_.enable ==> t.row == Blanks(t.width)
    ensures !new_.enable ==> (cur.Describes(t.row) <==> AllBlank(old(new_.contents[..new_.used])))
  {
    var obody, nbody := cur.contents, new_.contents;
    ghost var text := nbody[..new_.used];
    var olen := 0;
    if cur.enable {
      olen := TrimBlanks(obody, cur.used);
      PaddedTrimmed(obody[..cur.used], olen, t.width);
    }
    cur.enable := true;
    cur.used := new_.used;
    var nlen := 0;
    if new_.enable {
      nlen := TrimBlanks(nbody, new_.used);
      PaddedTrimmed(text, nlen, t.width);
    }
    ghost var n := nbody[..nlen];
    if nlen > 0 {
      olen := WriteText(t, obody, olen, nbody, nlen, charInsDelOk, cost);
    }
    JustErase(t, n, nlen, olen);
    PaddedBlank(text, t.width);
    cur.contents, new_.contents := nbody, obody;
    assert cur.contents[..cur.used] == text;
  }

  /** A stale "A" in a new line that is not enabled is such a case: the row is cleared, and the record says that
      there is an "A". */
  method StaleGlyph() returns (cur: Line, t: Terminal)
    ensures t.Valid() && cur.enable && t.row == Blanks(80) && !cur.Describes(t.row)
  {
    cur := new Line(80);
    t := new Terminal(80);
    var stale := new Line(80);
    stale.contents[0], stale.used := 65, 1;
    UpdateLine(cur, stale, t, true, n => n);
  }
}
