/** Small-string storage of the collector: string blocks, reference chains threaded through the
    `size` field, and the sliding compactor.

    Addresses.  A block with number `id` owns the cells [id * BLOCK, (id + 1) * BLOCK).  Blocks are
    numbered as they are allocated and a new block always goes to the end of the chain, so the
    chain lists strictly increasing numbers.  A machine word that holds either a string size or
    the address of a slot is the datatype `Word`. */
module StringSpace {
  import opened Common

  const INT_SIZE: nat := 4
  const BLOCK: nat := 8184 - 12       // STRING_BLOCK_SIZE
  const BLOCK_OUTSIZE: nat := 1024    // STRING_BLOCK_OUTSIZE

  /** The number of bytes a string of `size` characters takes, padding included. */
  function FullSize(size: nat): (r: nat)
    ensures size + INT_SIZE + 1 <= r < size + 2 * INT_SIZE + 1 && r % INT_SIZE == 0
  {
    (size + 2 * INT_SIZE) / INT_SIZE * INT_SIZE
  }

  function Max(a: nat, b: nat): nat { if a > b then a else b }

  datatype Word = Size(n: nat) | Link(slot: nat)

  datatype Cell = Header(w: Word) | Byte(c: char) | Pad

  /** What a Lisp_Object slot holds.  `Str` refers to a small string; `Chain` is the raw word a
      threaded slot holds while the collector runs; `Obj` is any other heap object. */
  datatype Object = Str(addr: nat) | Chain(w: Word) | Obj(id: nat) | Atom(n: int)

  datatype Slot = Slot(marked: bool, obj: Object)

  /** One string as the collector sees it: its address, its text, and the slots threaded on it,
      the most recent first. */
  datatype Rec = Rec(addr: nat, text: string, refs: seq<nat>)

  function End(r: Rec): nat { r.addr + FullSize(|r.text|) }

  /** The word in front of position `j` of a chain: the next slot, or the size at the end. */
  function ChainWord(refs: seq<nat>, j: nat, n: nat): Word {
    if j < |refs| then Link(refs[j]) else Size(n)
  }

  ghost predicate Threaded(slots: seq<Slot>, refs: seq<nat>, n: nat) {
    && (forall j :: 0 <= j < |refs| ==> refs[j] < |slots|)
    && (forall j {:trigger slots[refs[j]]} :: 0 <= j < |refs| ==>
          slots[refs[j]].obj == Chain(ChainWord(refs, j + 1, n)))
  }

  /** The characters of `text` and the terminating null, starting at `at`. */
  ghost predicate TextAt(mem: seq<Cell>, at: nat, text: string) {
    && at + |text| < |mem|
    && (forall i :: 0 <= i < |text| ==> mem[at + i] == Byte(text[i]))
    && mem[at + |text|] == Byte('\0')
  }

  ghost predicate Stored(mem: seq<Cell>, slots: seq<Slot>, r: Rec) {
    && End(r) <= |mem|
    && mem[r.addr] == Header(ChainWord(r.refs, 0, |r.text|))
    && TextAt(mem, r.addr + INT_SIZE, r.text)
    && Threaded(slots, r.refs, |r.text|)
  }

  ghost predicate Increasing(s: seq<nat>) {
    forall i, j :: 0 <= i < j < |s| ==> s[i] < s[j]
  }

  ghost predicate Ordered(recs: seq<Rec>) {
    forall i, j :: 0 <= i < j < |recs| ==> End(recs[i]) <= recs[j].addr
  }

  ghost predicate RefsApart(recs: seq<Rec>) {
    && (forall i :: 0 <= i < |recs| ==> Distinct(recs[i].refs))
    && (forall i, j :: 0 <= i < j < |recs| ==> forall s :: s in recs[i].refs ==> s !in recs[j].refs)
  }

  ghost predicate AllStored(mem: seq<Cell>, slots: seq<Slot>, recs: seq<Rec>) {
    forall i :: 0 <= i < |recs| ==> Stored(mem, slots, recs[i])
  }

  ghost predicate BlocksOk(chain: seq<nat>, fill: seq<nat>) {
    && (forall i :: 0 <= i < |chain| ==> chain[i] < |fill| && fill[chain[i]] <= BLOCK)
    && Increasing(chain)
  }

  /** Reading the blocks from offset `pos` of block `chain[f]` on, string after string, meets
      exactly the strings `recs[k..]`. */
  ghost predicate Scan(recs: seq<Rec>, chain: seq<nat>, fill: seq<nat>, k: nat, f: nat, pos: nat)
    decreases |chain| - f, |recs| - k
  {
    if f >= |chain| then k == |recs|
    else
      && chain[f] < |fill|
      && if pos == fill[chain[f]] then Scan(recs, chain, fill, k, f + 1, 0)
         else
           && k < |recs|
           && recs[k].addr == chain[f] * BLOCK + pos
           && pos + FullSize(|recs[k].text|) <= fill[chain[f]]
           && Scan(recs, chain, fill, k + 1, f, pos + FullSize(|recs[k].text|))
  }

  /** The same tiling seen from the writing end: the first `k` strings fill the blocks before
      `chain[t]` as far as their fill pointers say and block `chain[t]` up to `pos`. */
  ghost predicate Placed(recs: seq<Rec>, chain: seq<nat>, fill: seq<nat>, k: nat, t: nat, pos: nat)
    requires k <= |recs| && t < |chain|
    decreases k, t, pos
  {
    if pos > 0 then
      && k > 0
      && chain[t] * BLOCK <= recs[k - 1].addr
      && End(recs[k - 1]) == chain[t] * BLOCK + pos
      && Placed(recs, chain, fill, k - 1, t, recs[k - 1].addr - chain[t] * BLOCK)
    else if t > 0 then
      && chain[t - 1] < |fill|
      && Placed(recs, chain, fill, k, t - 1, fill[chain[t - 1]])
    else k == 0
  }

  /** Those of the first `k` strings that something refers to, in order. */
  function Live(recs: seq<Rec>, k: nat): (r: seq<Rec>)
    requires k <= |recs|
    ensures |r| <= k
  {
    if k == 0 then []
    else if recs[k - 1].refs == [] then Live(recs, k - 1)
    else Live(recs, k - 1) + [recs[k - 1]]
  }

  function TotalSize(recs: seq<Rec>): nat {
    if recs == [] then 0 else TotalSize(recs[..|recs| - 1]) + |recs[|recs| - 1].text|
  }

  /** Every slot of `refs` refers to `addr`, its mark bit untouched. */
  ghost predicate Repointed(slots: seq<Slot>, before: seq<Slot>, refs: seq<nat>, addr: nat) {
    forall s :: s in refs ==>
      s < |slots| && s < |before| && slots[s] == Slot(before[s].marked, Str(addr))
  }

  /** `dst` are the strings of `live`, moved, their chains resolved; no other slot differs. */
  ghost predicate Moved(mem: seq<Cell>, slots: seq<Slot>, before: seq<Slot>, live: seq<Rec>, dst: seq<Rec>) {
    && |dst| == |live|
    && |slots| == |before|
    && AllStored(mem, slots, dst)
    && Relocated(live, dst)
    && Settled(slots, before, live, dst)
  }

  ghost predicate Relocated(live: seq<Rec>, dst: seq<Rec>) {
    && |dst| == |live|
    && forall i :: 0 <= i < |dst| ==>
         dst[i].refs == [] && dst[i].text == live[i].text && dst[i].addr <= live[i].addr
  }

  ghost predicate Unthreaded(live: seq<Rec>, s: nat) {
    forall i :: 0 <= i < |live| ==> s !in live[i].refs
  }

  ghost predicate Settled(slots: seq<Slot>, before: seq<Slot>, live: seq<Rec>, dst: seq<Rec>)
    requires |slots| == |before| && |live| == |dst|
  {
    && (forall i :: 0 <= i < |dst| ==> Repointed(slots, before, live[i].refs, dst[i].addr))
    && (forall s :: 0 <= s < |slots| && Unthreaded(live, s) ==> slots[s] == before[s])
  }

  // ---- lemmas about the layout ----

  lemma StoredFrame(mem: seq<Cell>, mem': seq<Cell>, slots: seq<Slot>, slots': seq<Slot>, r: Rec)
    requires Stored(mem, slots, r)
    requires |mem| <= |mem'| && |slots| <= |slots'|
    requires forall a :: r.addr <= a < End(r) ==> mem'[a] == mem[a]
    requires forall s :: s in r.refs && s < |slots| ==> slots'[s] == slots[s]
    ensures Stored(mem', slots', r)
  {
    forall j | 0 <= j < |r.refs|
      ensures slots'[r.refs[j]] == slots[r.refs[j]]
    {
      assert r.refs[j] in r.refs;
    }
  }

  /** Mark bits are no concern of the string space. */
  lemma StoredRemark(mem: seq<Cell>, slots: seq<Slot>, slots': seq<Slot>, recs: seq<Rec>)
    requires AllStored(mem, slots, recs) && |slots'| == |slots|
    requires forall s :: 0 <= s < |slots| ==> slots'[s].obj == slots[s].obj
    ensures AllStored(mem, slots', recs)
  {
    forall i | 0 <= i < |recs| ensures Stored(mem, slots', recs[i]) {
      assert Stored(mem, slots, recs[i]);
    }
  }

  lemma {:induction false} PlacedFrame(recs: seq<Rec>, recs': seq<Rec>, chain: seq<nat>, fill: seq<nat>,
                                       fill': seq<nat>,
                                       k: nat, t: nat, pos: nat)
    requires k <= |recs| && k <= |recs'| && t < |chain| && Placed(recs, chain, fill, k, t, pos)
    requires recs[..k] == recs'[..k]
    requires |fill| == |fill'|
    requires forall i :: 0 <= i < t && chain[i] < |fill| ==> fill'[chain[i]] == fill[chain[i]]
    ensures Placed(recs', chain, fill', k, t, pos)
    decreases k, t, pos
  {
    if pos > 0 {
      assert recs[..k][k - 1] == recs'[..k][k - 1];
      assert recs[..k][..k - 1] == recs[..k - 1] && recs'[..k][..k - 1] == recs'[..k - 1];
      PlacedFrame(recs, recs', chain, fill, fill', k - 1, t, recs[k - 1].addr - chain[t] * BLOCK);
    } else if t > 0 {
      PlacedFrame(recs, recs', chain, fill, fill', k, t - 1, fill[chain[t - 1]]);
    }
  }

  /** What the writer laid down is what the next reader meets. */
  lemma {:induction false} PlacedScans(recs: seq<Rec>, chain: seq<nat>, fill: seq<nat>, k: nat, t: nat, pos: nat)
    requires k <= |recs| && t < |chain| && BlocksOk(chain, fill) && pos <= fill[chain[t]]
    requires Placed(recs, chain, fill, k, t, pos)
    requires Scan(recs, chain, fill, k, t, pos)
    ensures Scan(recs, chain, fill, 0, 0, 0)
    decreases k, t, pos
  {
    if pos > 0 {
      PlacedScans(recs, chain, fill, k - 1, t, recs[k - 1].addr - chain[t] * BLOCK);
    } else if t > 0 {
      PlacedScans(recs, chain, fill, k, t - 1, fill[chain[t - 1]]);
    }
  }

  /** Patching an empty block out of the chain loses no string. */
  lemma {:induction false} ScanWithoutEmpty(recs: seq<Rec>, chain: seq<nat>, fill: seq<nat>, i: nat, k: nat, f: nat,
                                            pos: nat)
    requires i < |chain| && chain[i] < |fill| && fill[chain[i]] == 0
    requires Scan(recs, chain, fill, k, f, pos) && (f == i ==> pos == 0)
    ensures Scan(recs, chain[..i] + chain[i + 1..], fill, k, if f <= i then f else f - 1, pos)
    decreases |chain| - f, |recs| - k
  {
    var chain' := chain[..i] + chain[i + 1..];
    if f < |chain| {
      if f != i {
        assert chain[f] == chain'[if f <= i then f else f - 1];
      }
      if pos == fill[chain[f]] {
        ScanWithoutEmpty(recs, chain, fill, i, k, f + 1, 0);
      } else {
        ScanWithoutEmpty(recs, chain, fill, i, k + 1, f, pos + FullSize(|recs[k].text|));
      }
    }
  }

  /** `chain'` is `chain` without some empty blocks, the first block never left out. */
  ghost predicate Trimmed(chain: seq<nat>, chain': seq<nat>, fill: seq<nat>) {
    && chain != [] && chain' != [] && chain'[0] == chain[0]
    && (forall b :: b in chain' ==> b in chain)
    && var z := chain[|chain| - 1];
       ((z < |fill| && fill[z] > 0) || |chain| == 1 ==> chain'[|chain'| - 1] == z)
  }

  ghost predicate Filled(chain: seq<nat>, fill: seq<nat>, n: nat) {
    forall j :: 0 < j < n && j < |chain| ==> chain[j] < |fill| && fill[chain[j]] > 0
  }

  lemma DropBlock(recs: seq<Rec>, chain0: seq<nat>, chain: seq<nat>, fill: seq<nat>, i: nat)
    requires 0 < i < |chain| && BlocksOk(chain, fill) && Scan(recs, chain, fill, 0, 0, 0) && fill[chain[i]] == 0
    requires Trimmed(chain0, chain, fill) && Filled(chain, fill, i)
    ensures var chain' := chain[..i] + chain[i + 1..];
            && BlocksOk(chain', fill) && Scan(recs, chain', fill, 0, 0, 0)
            && Trimmed(chain0, chain', fill) && Filled(chain', fill, i)
  {
    assert chain == chain[..i] + [chain[i]] + chain[i + 1..];
    ScanWithoutEmpty(recs, chain, fill, i, 0, 0, 0);
    assert chain[0] < chain[i];
    assert chain0[0] in chain0 && chain[i] in chain;
  }

  /** Scanning looks at addresses and texts only. */
  lemma {:induction false} ScanSameTexts(recs: seq<Rec>, recs': seq<Rec>, chain: seq<nat>, fill: seq<nat>, k: nat,
                                         f: nat, pos: nat)
    requires Scan(recs, chain, fill, k, f, pos)
    requires |recs| == |recs'|
    requires forall i :: 0 <= i < |recs| ==> recs'[i].addr == recs[i].addr && recs'[i].text == recs[i].text
    ensures Scan(recs', chain, fill, k, f, pos)
    decreases |chain| - f, |recs| - k
  {
    if f < |chain| {
      if pos == fill[chain[f]] {
        ScanSameTexts(recs, recs', chain, fill, k, f + 1, 0);
      } else {
        ScanSameTexts(recs, recs', chain, fill, k + 1, f, pos + FullSize(|recs[k].text|));
      }
    }
  }

  /** A string put at the end of the last block is the last one met. */
  lemma {:induction false} ScanAppend(recs: seq<Rec>, chain: seq<nat>, fill: seq<nat>, k: nat, f: nat, pos: nat, r: Rec)
    requires f < |chain| && BlocksOk(chain, fill) && Scan(recs, chain, fill, k, f, pos)
    requires var z := chain[|chain| - 1]; r.addr == z * BLOCK + fill[z]
    ensures var z := chain[|chain| - 1];
            Scan(recs + [r], chain, fill[z := fill[z] + FullSize(|r.text|)], k, f, pos)
    decreases |chain| - f, |recs| - k
  {
    var z := chain[|chain| - 1];
    var fill' := fill[z := fill[z] + FullSize(|r.text|)];
    if pos == fill[chain[f]] {
      if f + 1 == |chain| {
        assert k == |recs| && (recs + [r])[k] == r;
        assert Scan(recs + [r], chain, fill', k + 1, f + 1, 0);
        assert Scan(recs + [r], chain, fill', k + 1, f, fill'[z]);
      } else {
        assert chain[f] < z;
        ScanAppend(recs, chain, fill, k, f + 1, 0, r);
      }
    } else {
      assert (recs + [r])[k] == recs[k];
      ScanAppend(recs, chain, fill, k + 1, f, pos + FullSize(|recs[k].text|), r);
    }
  }

  /** Putting slot `s` at the front of a chain. */
  lemma ThreadedPush(slots: seq<Slot>, slots': seq<Slot>, s: nat, refs: seq<nat>, n: nat)
    requires Threaded(slots, refs, n) && s < |slots| && s !in refs
    requires slots' == slots[s := Slot(slots[s].marked, Chain(ChainWord(refs, 0, n)))]
    ensures Threaded(slots', [s] + refs, n)
  {
    var refs' := [s] + refs;
    forall j | 0 <= j < |refs'|
      ensures refs'[j] < |slots'| && slots'[refs'[j]].obj == Chain(ChainWord(refs', j + 1, n))
    {
      if j > 0 {
        assert refs'[j] == refs[j - 1] && refs[j - 1] in refs;
      }
    }
  }

  /** A slot in a chain does not refer to a string. */
  lemma NotInChain(mem: seq<Cell>, slots: seq<Slot>, r: Rec, s: nat)
    requires Stored(mem, slots, r) && s < |slots| && slots[s].obj.Str?
    ensures s !in r.refs
  {
  }

  /** Threading a slot that still refers to string `k` leaves every string stored. */
  lemma ThreadKeeps(mem: seq<Cell>, slots: seq<Slot>, recs: seq<Rec>, k: nat, s: nat)
    requires AllStored(mem, slots, recs) && Ordered(recs) && RefsApart(recs)
    requires s < |slots| && k < |recs| && slots[s].obj == Str(recs[k].addr)
    ensures mem[recs[k].addr] == Header(ChainWord(recs[k].refs, 0, |recs[k].text|))
    ensures var r := recs[k];
            var recs' := recs[k := r.(refs := [s] + r.refs)];
            && AllStored(mem[r.addr := Header(Link(s))],
                         slots[s := Slot(slots[s].marked, Chain(ChainWord(r.refs, 0, |r.text|)))], recs')
            && Ordered(recs') && RefsApart(recs')
  {
    hide Threaded, Distinct;
    var r := recs[k];
    assert Stored(mem, slots, r);
    var r' := r.(refs := [s] + r.refs);
    var mem' := mem[r.addr := Header(Link(s))];
    var slots' := slots[s := Slot(slots[s].marked, Chain(ChainWord(r.refs, 0, |r.text|)))];
    forall i | 0 <= i < |recs|
      ensures s !in recs[i].refs
    {
      NotInChain(mem, slots, recs[i], s);
    }
    ThreadedPush(slots, slots', s, r.refs, |r.text|);
    assert TextAt(mem', r.addr + INT_SIZE, r.text);
    assert Stored(mem', slots', r');
    forall i | 0 <= i < |recs| && i != k
      ensures Stored(mem', slots', recs[i])
    {
      assert Stored(mem, slots, recs[i]);
      assert End(recs[i]) <= r.addr || End(r) <= recs[i].addr;
      StoredFrame(mem, mem', slots, slots', recs[i]);
    }
    DistinctPush(s, r.refs);
  }

  lemma DistinctPush(s: nat, refs: seq<nat>)
    requires Distinct(refs) && s !in refs
    ensures Distinct([s] + refs)
  {
  }

  /** A live string is one of the old ones. */
  lemma {:induction false} LiveFrom(recs: seq<Rec>, k: nat, i: nat) returns (j: nat)
    requires k <= |recs| && i < |Live(recs, k)|
    ensures j < k && Live(recs, k)[i] == recs[j] && recs[j].refs != []
  {
    if i < |Live(recs, k - 1)| {
      j := LiveFrom(recs, k - 1, i);
    } else {
      j := k - 1;
    }
  }

  /** The state of the compactor between two strings: the first `k` strings are dealt with, their
      survivors `dst` lie below `toAddr`, and the others are untouched above it. */
  ghost predicate Between(mem: seq<Cell>, slots: seq<Slot>, before: seq<Slot>, recs: seq<Rec>, k: nat,
                           dst: seq<Rec>, toAddr: nat)
  {
    && k <= |recs|
    && Moved(mem, slots, before, Live(recs, k), dst)
    && Waiting(mem, slots, recs, k, toAddr)
    && Ordered(dst)
    && Below(dst, toAddr)
  }

  ghost predicate Waiting(mem: seq<Cell>, slots: seq<Slot>, recs: seq<Rec>, k: nat, toAddr: nat) {
    forall j :: k <= j < |recs| ==> Stored(mem, slots, recs[j]) && toAddr <= recs[j].addr
  }

  ghost predicate Below(dst: seq<Rec>, toAddr: nat) {
    forall i :: 0 <= i < |dst| ==> End(dst[i]) <= toAddr
  }

  /** The memory after string `r` has slid down to `to` and its size is back in its header. */
  function Slid(mem: seq<Cell>, r: Rec, to: nat): (mem': seq<Cell>)
    requires to <= r.addr && End(r) <= |mem|
    ensures |mem'| == |mem|
  {
    var n := |r.text| + 1 + INT_SIZE;
    (mem[..to] + mem[r.addr..r.addr + n] + mem[to + n..])[to := Header(Size(|r.text|))]
  }

  /** Sliding by nothing is no change; and the word that leads to the chain moves along. */
  lemma SlideIs(mem: seq<Cell>, r: Rec, to: nat)
    requires to <= r.addr && End(r) <= |mem|
    ensures var a, n := r.addr, |r.text| + 1 + INT_SIZE;
            var moved := if a != to then mem[..to] + mem[a..a + n] + mem[to + n..] else mem;
            && |moved| == |mem| && moved[to] == mem[a]
            && moved[to := Header(Size(|r.text|))] == Slid(mem, r, to)
  {
    var a, n := r.addr, |r.text| + 1 + INT_SIZE;
    if a == to {
      assert mem[..to] + mem[a..a + n] + mem[to + n..] == mem;
    }
  }

  lemma StoredAt(mem: seq<Cell>, slots: seq<Slot>, r: Rec)
    requires Stored(mem, slots, r)
    ensures End(r) <= |mem| && mem[r.addr] == Header(ChainWord(r.refs, 0, |r.text|))
    ensures Threaded(slots, r.refs, |r.text|)
  {
  }

  lemma SlidStored(mem: seq<Cell>, slots: seq<Slot>, slots': seq<Slot>, r: Rec, to: nat)
    requires Stored(mem, slots, r) && to <= r.addr
    ensures Stored(Slid(mem, r, to), slots', Rec(to, r.text, []))
    ensures forall a :: 0 <= a < |mem| && (a < to || to + FullSize(|r.text|) <= a) ==> Slid(mem, r, to)[a] == mem[a]
  {
    var mem' := Slid(mem, r, to);
    assert forall i :: to < i < to + |r.text| + 1 + INT_SIZE ==> mem'[i] == mem[r.addr + (i - to)];
  }

  /** One live string moved and its chain resolved. */
  lemma MoveStep(mem: seq<Cell>, slots: seq<Slot>, slots': seq<Slot>, before: seq<Slot>, recs: seq<Rec>, k: nat,
                 dst: seq<Rec>, toAddr: nat, to: nat)
    requires k < |recs| && Ordered(recs) && RefsApart(recs) && recs[k].refs != []
    requires Between(mem, slots, before, recs, k, dst, toAddr)
    requires toAddr <= to <= recs[k].addr
    requires |slots'| == |slots| && Repointed(slots', slots, recs[k].refs, to)
    requires forall s :: 0 <= s < |slots| && s !in recs[k].refs ==> slots'[s] == slots[s]
    ensures End(recs[k]) <= |mem|
    ensures Between(Slid(mem, recs[k], to), slots', before, recs, k + 1, dst + [Rec(to, recs[k].text, [])],
                     to + FullSize(|recs[k].text|))
  {
    var r := recs[k];
    var live := Live(recs, k);
    NotThreadedBefore(recs, k);
    MoveKeepsRest(mem, slots, slots', recs, k, toAddr, to);
    MoveKeepsMoved(mem, slots, slots', r, live, dst, toAddr, to);
    MoveKeepsSettled(slots, slots', before, live, dst, r, to);
  }

  lemma NotThreadedBefore(recs: seq<Rec>, k: nat)
    requires k < |recs| && RefsApart(recs)
    ensures forall s :: s in recs[k].refs ==> Unthreaded(Live(recs, k), s)
  {
    forall s, i | s in recs[k].refs && 0 <= i < |Live(recs, k)|
      ensures s !in Live(recs, k)[i].refs
    {
      var j := LiveFrom(recs, k, i);
    }
  }

  lemma MoveKeepsMoved(mem: seq<Cell>, slots: seq<Slot>, slots': seq<Slot>, r: Rec, live: seq<Rec>, dst: seq<Rec>,
                       toAddr: nat, to: nat)
    requires Stored(mem, slots, r) && toAddr <= to <= r.addr && |slots'| == |slots|
    requires AllStored(mem, slots, dst) && Ordered(dst) && Relocated(live, dst) && Below(dst, toAddr)
    ensures var dst' := dst + [Rec(to, r.text, [])];
            && AllStored(Slid(mem, r, to), slots', dst') && Ordered(dst') && Relocated(live + [r], dst')
            && Below(dst', to + FullSize(|r.text|))
  {
    SlidStored(mem, slots, slots', r, to);
    forall i | 0 <= i < |dst|
      ensures Stored(Slid(mem, r, to), slots', dst[i])
    {
      StoredFrame(mem, Slid(mem, r, to), slots, slots', dst[i]);
    }
  }

  lemma MoveKeepsRest(mem: seq<Cell>, slots: seq<Slot>, slots': seq<Slot>, recs: seq<Rec>, k: nat, toAddr: nat, to: nat)
    requires k < |recs| && Ordered(recs) && RefsApart(recs) && |slots'| == |slots|
    requires Waiting(mem, slots, recs, k, toAddr)
    requires to <= recs[k].addr
    requires forall s :: 0 <= s < |slots| && s !in recs[k].refs ==> slots'[s] == slots[s]
    ensures Stored(mem, slots, recs[k])
    ensures Waiting(Slid(mem, recs[k], to), slots', recs, k + 1, to + FullSize(|recs[k].text|))
  {
    SlidStored(mem, slots, slots', recs[k], to);
    forall j | k < j < |recs|
      ensures Stored(Slid(mem, recs[k], to), slots', recs[j])
    {
      StoredFrame(mem, Slid(mem, recs[k], to), slots, slots', recs[j]);
    }
  }

  lemma MoveKeepsSettled(slots: seq<Slot>, slots': seq<Slot>, before: seq<Slot>, live: seq<Rec>, dst: seq<Rec>,
                         r: Rec, to: nat)
    requires |slots| == |before| == |slots'| && |live| == |dst|
    requires Settled(slots, before, live, dst)
    requires forall s :: s in r.refs ==> Unthreaded(live, s)
    requires Repointed(slots', slots, r.refs, to)
    requires forall s :: 0 <= s < |slots| && s !in r.refs ==> slots'[s] == slots[s]
    ensures Settled(slots', before, live + [r], dst + [Rec(to, r.text, [])])
  {
    var live' := live + [r];
    forall s | 0 <= s < |slots| && Unthreaded(live', s)
      ensures slots'[s] == before[s]
    {
      assert live'[|live|] == r;
      forall i | 0 <= i < |live| ensures s !in live[i].refs { assert live'[i] == live[i]; }
    }
    forall i | 0 <= i < |live|
      ensures Repointed(slots', before, live[i].refs, dst[i].addr)
    {
      forall s | s in live[i].refs ensures s !in r.refs { }
    }
  }

  /** A string nothing refers to is stepped over. */
  lemma SkipStep(mem: seq<Cell>, slots: seq<Slot>, before: seq<Slot>, recs: seq<Rec>, k: nat,
                 dst: seq<Rec>, toAddr: nat)
    requires k < |recs| && Ordered(recs) && recs[k].refs == []
    requires Between(mem, slots, before, recs, k, dst, toAddr)
    ensures Between(mem, slots, before, recs, k + 1, dst, toAddr)
  {
  }

  /** Where the writer is: block `chain[t]` at `toPos`, with `dst` behind it, and the blocks from
      `t` on still with their old fill pointers `fill0`. */
  ghost predicate Writer(chain: seq<nat>, fill: seq<nat>, fill0: seq<nat>, dst: seq<Rec>, t: nat, toPos: nat) {
    && BlocksOk(chain, fill)
    && |fill| == |fill0|
    && t < |chain| && toPos <= BLOCK
    && (forall i :: t <= i < |chain| ==> fill[chain[i]] == fill0[chain[i]])
    && Placed(dst, chain, fill, |dst|, t, toPos)
  }

  lemma WriterAppend(chain: seq<nat>, fill: seq<nat>, fill0: seq<nat>, dst: seq<Rec>, t: nat, pos: nat, r: Rec)
    requires Writer(chain, fill, fill0, dst, t, pos) && r.addr == chain[t] * BLOCK + pos
    requires pos + FullSize(|r.text|) <= BLOCK
    ensures Writer(chain, fill, fill0, dst + [r], t, pos + FullSize(|r.text|))
  {
    PlacedFrame(dst, dst + [r], chain, fill, fill, |dst|, t, pos);
  }

  /** What does not change while the compactor runs: the block chain, the old fill pointers and
      slots, and the strings as they were. */
  datatype Start = Start(chain: seq<nat>, fill: seq<nat>, slots: seq<Slot>, recs: seq<Rec>)

  ghost predicate Progress(mem: seq<Cell>, slots: seq<Slot>, z: Start, k: nat, dst: seq<Rec>, t: nat, toPos: nat)
    requires t < |z.chain|
  {
    Between(mem, slots, z.slots, z.recs, k, dst, z.chain[t] * BLOCK + toPos)
  }

  lemma MoveLiveStep(mem: seq<Cell>, slots: seq<Slot>, mem': seq<Cell>, slots': seq<Slot>, z: Start, k: nat, k': nat,
                     dst: seq<Rec>, t0: nat, toPos0: nat, fill: seq<nat>, t: nat, room: nat, to: nat, toPos: nat)
      returns (dst': seq<Rec>)
    requires k' == k + 1 && k < |z.recs| && Ordered(z.recs) && RefsApart(z.recs) && z.recs[k].refs != []
    requires t0 < |z.chain|
    requires Progress(mem, slots, z, k, dst, t0, toPos0)
    requires Writer(z.chain, fill, z.fill, dst, t, room)
    requires z.chain[t0] * BLOCK + toPos0 <= to == z.chain[t] * BLOCK + room <= z.recs[k].addr
    requires toPos == room + FullSize(|z.recs[k].text|) <= BLOCK
    requires End(z.recs[k]) <= |mem| && mem' == Slid(mem, z.recs[k], to)
    requires |slots'| == |slots| && Repointed(slots', slots, z.recs[k].refs, to)
    requires forall s :: 0 <= s < |slots| && s !in z.recs[k].refs ==> slots'[s] == slots[s]
    ensures TotalSize(dst') == TotalSize(dst) + |z.recs[k].text|
    ensures Writer(z.chain, fill, z.fill, dst', t, toPos)
    ensures Progress(mem', slots', z, k', dst', t, toPos)
  {
    var r' := Rec(to, z.recs[k].text, []);
    dst' := dst + [r'];
    assert dst'[..|dst|] == dst;
    MoveStep(mem, slots, slots', z.slots, z.recs, k, dst, z.chain[t0] * BLOCK + toPos0, to);
    WriterAppend(z.chain, fill, z.fill, dst, t, room, r');
    assert z.chain[t] * BLOCK + toPos == to + FullSize(|z.recs[k].text|);
  }

  /** The state of the scan before the string at offset `pos` of block `chain[f]`. */
  ghost predicate Scanning(z: Start, mem: seq<Cell>, slots: seq<Slot>, fill: seq<nat>,
                           k: nat, f: nat, pos: nat, t: nat, toPos: nat, dst: seq<Rec>)
  {
    && k <= |z.recs| && f < |z.chain| && Ordered(z.recs) && RefsApart(z.recs)
    && t <= f && (t == f ==> toPos <= pos) && (t > 0 ==> toPos > 0)
    && BlocksOk(z.chain, z.fill) && pos <= z.fill[z.chain[f]]
    && Writer(z.chain, fill, z.fill, dst, t, toPos)
    && Scan(z.recs, z.chain, z.fill, k, f, pos)
    && Progress(mem, slots, z, k, dst, t, toPos)
  }

  lemma ScanOn(z: Start, mem: seq<Cell>, slots: seq<Slot>, fill: seq<nat>, k: nat, f: nat, pos: nat, t: nat, toPos: nat,
               dst: seq<Rec>, k': nat, pos': nat)
    requires k < |z.recs| && f < |z.chain| && Ordered(z.recs) && RefsApart(z.recs) && BlocksOk(z.chain, z.fill)
    requires Scan(z.recs, z.chain, z.fill, k, f, pos) && pos < z.fill[z.chain[f]]
    requires k' == k + 1 && pos' == pos + FullSize(|z.recs[k].text|)
    requires t <= f && (t == f ==> toPos <= pos') && (t > 0 ==> toPos > 0)
    requires Writer(z.chain, fill, z.fill, dst, t, toPos)
    requires Progress(mem, slots, z, k', dst, t, toPos)
    ensures Scanning(z, mem, slots, fill, k', f, pos', t, toPos, dst)
  {
  }

  /** The next string the scan meets. */
  lemma NextString(z: Start, mem: seq<Cell>, slots: seq<Slot>, fill: seq<nat>, k: nat, f: nat, pos: nat, t: nat,
                   toPos: nat,
                   dst: seq<Rec>, at: nat)
    requires Scanning(z, mem, slots, fill, k, f, pos, t, toPos, dst) && pos < z.fill[z.chain[f]]
    requires at == z.chain[f] * BLOCK + pos
    ensures k < |z.recs| && z.recs[k].addr == at && pos + FullSize(|z.recs[k].text|) <= z.fill[z.chain[f]]
    ensures Stored(mem, slots, z.recs[k])
    ensures at < |mem| && mem[at] == Header(ChainWord(z.recs[k].refs, 0, |z.recs[k].text|))
  {
  }

  /** The state when every block has been read. */
  ghost predicate Settling(z: Start, mem: seq<Cell>, slots: seq<Slot>, fill: seq<nat>, t: nat, toPos: nat,
                           dst: seq<Rec>) {
    && t < |z.chain| && (t > 0 ==> toPos > 0)
    && Writer(z.chain, fill, z.fill, dst, t, toPos)
    && Moved(mem, slots, z.slots, Live(z.recs, |z.recs|), dst) && Ordered(dst)
  }

  /** Entering the next block. */
  lemma ScanNext(z: Start, mem: seq<Cell>, slots: seq<Slot>, fill: seq<nat>, k: nat, f: nat, t: nat, toPos: nat,
                 dst: seq<Rec>, f': nat)
    requires f < |z.chain| && z.chain[f] < |z.fill| && f' == f + 1
    requires Scanning(z, mem, slots, fill, k, f, z.fill[z.chain[f]], t, toPos, dst)
    ensures if f' < |z.chain| then Scanning(z, mem, slots, fill, k, f', 0, t, toPos, dst)
            else Settling(z, mem, slots, fill, t, toPos, dst)
  {
    assert Scan(z.recs, z.chain, z.fill, k, f', 0);
  }

  lemma StartScan(z: Start, mem: seq<Cell>, slots: seq<Slot>)
    requires z.chain != [] && BlocksOk(z.chain, z.fill) && slots == z.slots && |mem| == |z.fill| * BLOCK
    requires Ordered(z.recs) && RefsApart(z.recs) && AllStored(mem, slots, z.recs)
    requires Scan(z.recs, z.chain, z.fill, 0, 0, 0)
    ensures Scanning(z, mem, slots, z.fill, 0, 0, 0, 0, 0, [])
  {
    ScanAbove(z.recs, z.chain, z.fill, 0, 0, 0);
  }

  /** The strings a scan has yet to meet lie above it. */
  lemma {:induction false} ScanAbove(recs: seq<Rec>, chain: seq<nat>, fill: seq<nat>, k: nat, f: nat, pos: nat)
    requires f < |chain| && BlocksOk(chain, fill) && Scan(recs, chain, fill, k, f, pos)
    ensures forall j :: k <= j < |recs| ==> chain[f] * BLOCK <= recs[j].addr
    decreases |chain| - f, |recs| - k
  {
    if pos == fill[chain[f]] {
      if f + 1 < |chain| { ScanAbove(recs, chain, fill, k, f + 1, 0); }
    } else {
      ScanAbove(recs, chain, fill, k + 1, f, pos + FullSize(|recs[k].text|));
    }
  }

  /** Closing out the last block: the survivors tile the blocks that are kept. */
  lemma FinishScan(chain: seq<nat>, fill: seq<nat>, fill0: seq<nat>, dst: seq<Rec>, t: nat, toPos: nat, fill': seq<nat>)
    requires Writer(chain, fill, fill0, dst, t, toPos) && fill' == fill[chain[t] := toPos]
    ensures BlocksOk(chain[..t + 1], fill') && Scan(dst, chain[..t + 1], fill', 0, 0, 0)
  {
    PlacedFrame(dst, dst, chain, fill, fill', |dst|, t, toPos);
    PlacedShorter(dst, chain, fill', |dst|, t, t, toPos);
    PlacedScans(dst, chain[..t + 1], fill', |dst|, t, toPos);
  }

  lemma {:induction false} PlacedShorter(recs: seq<Rec>, chain: seq<nat>, fill: seq<nat>, k: nat, last: nat, t: nat,
                                         pos: nat)
    requires k <= |recs| && t <= last < |chain| && Placed(recs, chain, fill, k, t, pos)
    ensures Placed(recs, chain[..last + 1], fill, k, t, pos)
    decreases k, t, pos
  {
    if pos > 0 {
      PlacedShorter(recs, chain, fill, k - 1, last, t, recs[k - 1].addr - chain[t] * BLOCK);
    } else if t > 0 {
      PlacedShorter(recs, chain, fill, k, last, t - 1, fill[chain[t - 1]]);
    }
  }

  lemma RefsApartEmpty(recs: seq<Rec>)
    requires forall i :: 0 <= i < |recs| ==> recs[i].refs == []
    ensures RefsApart(recs)
  {
  }

  lemma AddressOrder(chain: seq<nat>, t: nat, toPos: nat, f: nat, pos: nat)
    requires Increasing(chain) && t <= f < |chain| && toPos <= BLOCK
    requires t == f ==> toPos <= pos
    ensures chain[t] * BLOCK + toPos <= chain[f] * BLOCK + pos
  {
  }

  // ---- what a collection means to the slots ----

  /** The string a reader finds at `addr`: the size word, then that many characters. */
  ghost function ReadString(mem: seq<Cell>, addr: nat): (r: Option<string>) {
    if addr < |mem| && mem[addr].Header? && mem[addr].w.Size? && addr + INT_SIZE + mem[addr].w.n <= |mem| then
      var cells := mem[addr + INT_SIZE..addr + INT_SIZE + mem[addr].w.n];
      if forall i :: 0 <= i < |cells| ==> cells[i].Byte? then
        Some(seq(|cells|, i requires 0 <= i < |cells| => cells[i].c))
      else None
    else None
  }

  lemma ReadStored(mem: seq<Cell>, slots: seq<Slot>, r: Rec)
    requires Stored(mem, slots, r) && r.refs == []
    ensures ReadString(mem, r.addr) == Some(r.text)
  {
    var cells := mem[r.addr + INT_SIZE..r.addr + INT_SIZE + |r.text|];
    assert forall i :: 0 <= i < |cells| ==> cells[i] == Byte(r.text[i]);
    assert seq(|cells|, i requires 0 <= i < |cells| => cells[i].c) == r.text;
  }

  /** The place of string `k` among the live ones. */
  function Rank(recs: seq<Rec>, k: nat): nat
    requires k <= |recs|
  {
    |Live(recs, k)|
  }

  lemma {:induction false} LiveAtRank(recs: seq<Rec>, n: nat, k: nat)
    requires k < n <= |recs| && recs[k].refs != []
    ensures Rank(recs, k) < |Live(recs, n)| && Live(recs, n)[Rank(recs, k)] == recs[k]
  {
    if k + 1 < n {
      LiveAtRank(recs, n - 1, k);
    }
  }

  lemma {:induction false} RankIncreases(recs: seq<Rec>, j: nat, k: nat)
    requires j < k <= |recs| && recs[j].refs != []
    ensures Rank(recs, j) < Rank(recs, k)
  {
    if j + 1 < k {
      RankIncreases(recs, j, k - 1);
    }
  }

  ghost predicate ReferredTo(slots: seq<Slot>, refs: seq<nat>, addr: nat) {
    forall s :: s in refs ==> s < |slots| && slots[s].obj == Str(addr)
  }

  /** `slots` and `recs` are `slots0` and `recs0` after some slots were threaded. */
  ghost predicate Linked(slots0: seq<Slot>, recs0: seq<Rec>, slots: seq<Slot>, recs: seq<Rec>) {
    && |recs| == |recs0| && |slots| == |slots0|
    && (forall k :: 0 <= k < |recs| ==>
          recs[k].addr == recs0[k].addr && recs[k].text == recs0[k].text && recs0[k].refs == [])
    && (forall k :: 0 <= k < |recs| ==> ReferredTo(slots0, recs[k].refs, recs0[k].addr))
    && (forall s :: 0 <= s < |slots| && Unthreaded(recs, s) ==> slots[s].obj == slots0[s].obj)
  }

  /** Where a slot that refers to string `k` refers to after the compaction. */
  function NewAddress(recs: seq<Rec>, dst: seq<Rec>, k: nat): nat
    requires k < |recs| && Rank(recs, k) < |dst|
  {
    dst[Rank(recs, k)].addr
  }

  /** The compactor moves string `k`, if anything refers to it, to `NewAddress`: the text found
      there is the old text, every threaded slot follows with its mark bit, the slots of one
      string and only those stay together, and the order of the strings is kept. */
  lemma CompactionKeepsStrings(mem0: seq<Cell>, slots0: seq<Slot>, recs0: seq<Rec>,
                               slots1: seq<Slot>, recs1: seq<Rec>,
                               mem2: seq<Cell>, slots2: seq<Slot>, recs2: seq<Rec>)
    requires AllStored(mem0, slots0, recs0) && Linked(slots0, recs0, slots1, recs1)
    requires Moved(mem2, slots2, slots1, Live(recs1, |recs1|), recs2) && Ordered(recs2)
    ensures forall k :: 0 <= k < |recs1| && recs1[k].refs != [] ==>
              && Rank(recs1, k) < |recs2|
              && NewAddress(recs1, recs2, k) <= recs0[k].addr
              && ReadString(mem2, NewAddress(recs1, recs2, k)) == ReadString(mem0, recs0[k].addr) == Some(recs0[k].text)
              && Repointed(slots2, slots1, recs1[k].refs, NewAddress(recs1, recs2, k))
    ensures forall j, k :: 0 <= j < k < |recs1| && recs1[j].refs != [] && recs1[k].refs != [] ==>
              NewAddress(recs1, recs2, j) < NewAddress(recs1, recs2, k)
    ensures forall s :: 0 <= s < |slots1| && Unthreaded(recs1, s) ==> slots2[s] == slots1[s]
  {
    var n := |recs1|;
    forall k | 0 <= k < n && recs1[k].refs != []
      ensures Rank(recs1, k) < |recs2| && recs2[Rank(recs1, k)].text == recs0[k].text
      ensures NewAddress(recs1, recs2, k) <= recs0[k].addr
      ensures ReadString(mem2, NewAddress(recs1, recs2, k)) == ReadString(mem0, recs0[k].addr) == Some(recs0[k].text)
      ensures Repointed(slots2, slots1, recs1[k].refs, NewAddress(recs1, recs2, k))
    {
      LiveAtRank(recs1, n, k);
      ReadStored(mem0, slots0, recs0[k]);
      ReadStored(mem2, slots2, recs2[Rank(recs1, k)]);
    }
    forall j, k | 0 <= j < k < n && recs1[j].refs != [] && recs1[k].refs != []
      ensures NewAddress(recs1, recs2, j) < NewAddress(recs1, recs2, k)
    {
      RankIncreases(recs1, j, k);
    }
    forall s | 0 <= s < |slots1| && Unthreaded(recs1, s)
      ensures slots2[s] == slots1[s]
    {
      forall i | 0 <= i < |Live(recs1, n)| ensures s !in Live(recs1, n)[i].refs {
        var j := LiveFrom(recs1, n, i);
      }
    }
  }

  /** Nothing but the strings something refers to survives. */
  lemma OnlyLiveSurvive(recs1: seq<Rec>, recs2: seq<Rec>, i: nat) returns (k: nat)
    requires |recs2| == |Live(recs1, |recs1|)| && i < |recs2|
    ensures k < |recs1| && recs1[k].refs != [] && Live(recs1, |recs1|)[i] == recs1[k]
  {
    k := LiveFrom(recs1, |recs1|, i);
  }

  /** Every string a scan meets ends below the free space of the last block. */
  lemma {:induction false} ScanBelow(recs: seq<Rec>, chain: seq<nat>, fill: seq<nat>, k: nat, f: nat, pos: nat)
    requires f < |chain| && BlocksOk(chain, fill) && Scan(recs, chain, fill, k, f, pos)
    ensures var z := chain[|chain| - 1];
            forall j :: k <= j < |recs| ==> End(recs[j]) <= z * BLOCK + fill[z]
    decreases |chain| - f, |recs| - k
  {
    var z := chain[|chain| - 1];
    if pos == fill[chain[f]] {
      if f + 1 < |chain| { ScanBelow(recs, chain, fill, k, f + 1, 0); }
    } else {
      AddressOrder(chain, f, fill[chain[f]], |chain| - 1, fill[z]);
      ScanBelow(recs, chain, fill, k + 1, f, pos + FullSize(|recs[k].text|));
    }
  }

  /** A new block at the end of the chain that holds one string. */
  lemma {:induction false} ScanNewBlock(recs: seq<Rec>, chain: seq<nat>, fill: seq<nat>, k: nat, f: nat, pos: nat,
                                        r: Rec)
    requires f <= |chain| && BlocksOk(chain, fill) && Scan(recs, chain, fill, k, f, pos) && (f == |chain| ==> pos == 0)
    requires r.addr == |fill| * BLOCK
    ensures Scan(recs + [r], chain + [|fill|], fill + [FullSize(|r.text|)], k, f, pos)
    decreases |chain| - f, |recs| - k
  {
    var chain', fill', recs' := chain + [|fill|], fill + [FullSize(|r.text|)], recs + [r];
    if f == |chain| {
      assert k == |recs| && recs'[k] == r && chain'[f] == |fill|;
      assert Scan(recs', chain', fill', k + 1, f + 1, 0);
      assert Scan(recs', chain', fill', k + 1, f, FullSize(|r.text|));
    } else if pos == fill[chain[f]] {
      ScanNewBlock(recs, chain, fill, k, f + 1, 0, r);
    } else {
      assert recs'[k] == recs[k];
      ScanNewBlock(recs, chain, fill, k + 1, f, pos + FullSize(|recs[k].text|), r);
    }
  }

  /** `n` cells: a header, the text, its null, and padding. */
  function Image(text: string, n: nat): (cells: seq<Cell>)
    requires INT_SIZE + |text| + 1 <= n
    ensures |cells| == n
  {
    seq(n, i => if i == 0 then Header(Size(|text|))
                else if INT_SIZE <= i < INT_SIZE + |text| then Byte(text[i - INT_SIZE])
                else if i == INT_SIZE + |text| then Byte('\0') else Pad)
  }

  lemma AppendRoom(recs: seq<Rec>, chain: seq<nat>, fill: seq<nat>, addr: nat, text: string)
    requires chain != [] && BlocksOk(chain, fill) && Scan(recs, chain, fill, 0, 0, 0)
    requires var z := chain[|chain| - 1]; addr == z * BLOCK + fill[z] && FullSize(|text|) <= BLOCK - fill[z]
    ensures var z := chain[|chain| - 1];
            var fill' := fill[z := fill[z] + FullSize(|text|)];
            && BlocksOk(chain, fill')
            && Scan(recs + [Rec(addr, text, [])], chain, fill', 0, 0, 0)
            && addr + FullSize(|text|) <= |fill| * BLOCK
    ensures forall i :: 0 <= i < |recs| ==> End(recs[i]) <= addr
  {
    ScanBelow(recs, chain, fill, 0, 0, 0);
    ScanAppend(recs, chain, fill, 0, 0, 0, Rec(addr, text, []));
  }

  function Written(mem: seq<Cell>, addr: nat, text: string): (mem': seq<Cell>)
    requires addr + FullSize(|text|) <= |mem|
    ensures |mem'| == |mem|
    ensures mem'[..addr] == mem[..addr]
    ensures mem'[addr..addr + FullSize(|text|)] == Image(text, FullSize(|text|))
  {
    mem[..addr] + Image(text, FullSize(|text|)) + mem[addr + FullSize(|text|)..]
  }

  lemma ImageStored(mem: seq<Cell>, slots: seq<Slot>, r: Rec)
    requires End(r) <= |mem| && r.refs == [] && mem[r.addr..End(r)] == Image(r.text, FullSize(|r.text|))
    ensures Stored(mem, slots, r)
  {
    hide Image;
    var n := FullSize(|r.text|);
    var image := Image(r.text, n);
    ImageCells(r.text, n);
    assert forall i :: 0 <= i < n ==> mem[r.addr + i] == mem[r.addr..End(r)][i] == image[i];
    assert mem[r.addr + INT_SIZE + |r.text|] == image[INT_SIZE + |r.text|];
    forall i | 0 <= i < |r.text| ensures mem[r.addr + INT_SIZE + i] == Byte(r.text[i]) {
      assert mem[r.addr + (INT_SIZE + i)] == image[INT_SIZE + i];
    }
  }

  lemma ImageCells(text: string, n: nat)
    requires INT_SIZE + |text| + 1 <= n
    ensures var cells := Image(text, n);
            && cells[0] == Header(Size(|text|)) && cells[INT_SIZE + |text|] == Byte('\0')
            && forall i :: 0 <= i < |text| ==> cells[INT_SIZE + i] == Byte(text[i])
  {
  }

  /** Writing a new string past all the others leaves them stored. */
  lemma AllocateKeeps(mem: seq<Cell>, mem': seq<Cell>, slots: seq<Slot>, recs: seq<Rec>, r: Rec)
    requires AllStored(mem, slots, recs) && Ordered(recs) && RefsApart(recs) && r.refs == []
    requires forall i :: 0 <= i < |recs| ==> End(recs[i]) <= r.addr
    requires |mem| <= |mem'| && End(r) <= |mem'|
    requires r.addr <= |mem| && mem'[..r.addr] == mem[..r.addr]
    requires mem'[r.addr..End(r)] == Image(r.text, FullSize(|r.text|))
    ensures AllStored(mem', slots, recs + [r]) && Ordered(recs + [r]) && RefsApart(recs + [r])
  {
    hide Stored, Image;
    forall i | 0 <= i < |recs|
      ensures Stored(mem', slots, recs[i])
    {
      assert forall a :: 0 <= a < r.addr ==> mem'[a] == mem'[..r.addr][a] == mem[..r.addr][a] == mem[a];
      StoredFrame(mem, mem', slots, slots, recs[i]);
    }
    ImageStored(mem', slots, r);
  }

  /** The first `j` slots of a chain refer to `addr`, the others are as they were. */
  ghost predicate Unthreading(slots: seq<Slot>, before: seq<Slot>, refs: seq<nat>, addr: nat, j: nat) {
    && |slots| == |before|
    && (forall i :: 0 <= i < |refs| ==>
          refs[i] < |slots| && slots[refs[i]] == if i < j then Slot(before[refs[i]].marked, Str(addr)) else before[refs[i]])
    && (forall s :: 0 <= s < |slots| && s !in refs ==> slots[s] == before[s])
  }

  lemma UnthreadStart(slots: seq<Slot>, refs: seq<nat>, n: nat, addr: nat)
    requires Threaded(slots, refs, n)
    ensures Unthreading(slots, slots, refs, addr, 0)
  {
  }

  lemma UnthreadStep(slots: seq<Slot>, before: seq<Slot>, refs: seq<nat>, n: nat, addr: nat, j: nat, j': nat)
    requires Threaded(before, refs, n) && Distinct(refs)
    requires j < |refs| && j' == j + 1 && Unthreading(slots, before, refs, addr, j)
    ensures refs[j] < |slots| && slots[refs[j]].obj == Chain(ChainWord(refs, j', n))
    ensures Unthreading(slots[refs[j] := Slot(slots[refs[j]].marked, Str(addr))], before, refs, addr, j')
  {
    hide Threaded;
    ThreadedAt(before, refs, n, j, j');
    assert slots[refs[j]] == before[refs[j]];
  }

  lemma ThreadedAt(slots: seq<Slot>, refs: seq<nat>, n: nat, j: nat, j': nat)
    requires Threaded(slots, refs, n) && j < |refs| && j' == j + 1
    ensures refs[j] < |slots| && slots[refs[j]].obj == Chain(ChainWord(refs, j', n))
  {
    hide ChainWord;
    assert slots[refs[j]].obj == Chain(ChainWord(refs, j + 1, n));
  }

  lemma UnthreadEnd(slots: seq<Slot>, before: seq<Slot>, refs: seq<nat>, addr: nat, j: nat)
    requires Unthreading(slots, before, refs, addr, j) && j >= |refs|
    ensures |slots| == |before| && Repointed(slots, before, refs, addr)
    ensures forall s :: 0 <= s < |slots| && s !in refs ==> slots[s] == before[s]
  {
  }

  datatype Allocation = Small(addr: nat) | Large

  class Strings {
    var mem: seq<Cell>
    var fill: seq<nat>       // the `pos` field of each block
    var chain: seq<nat>      // first_string_block and its successors
    var current: nat         // current_string_block
    var slots: seq<Slot>
    ghost var recs: seq<Rec>

    ghost predicate Shape()
      reads this
    {
      && |mem| == |fill| * BLOCK
      && chain != []
      && BlocksOk(chain, fill)
      && current == chain[|chain| - 1]
      && Ordered(recs)
      && RefsApart(recs)
      && Scan(recs, chain, fill, 0, 0, 0)
    }

    ghost predicate Valid()
      reads this
    {
      Shape() && AllStored(mem, slots, recs)
    }

    /** init_strings: one empty block, and no strings.  `slots` are the places references will be in. */
    constructor (slots: seq<Slot>)
      ensures Valid() && recs == [] && this.slots == slots && chain == [0] && fill == [0] && |mem| == BLOCK
    {
      mem, fill, chain, current := seq(BLOCK, _ => Pad), [0], [0], 0;
      this.slots, recs := slots, [];
    }

    /** The string case of mark_object for a small string: put slot `s` into the chain of
        references hung off the string's size field. */
    method Thread(s: nat, ghost k: nat)
      requires Valid()
      requires s < |slots| && k < |recs| && slots[s].obj == Str(recs[k].addr)
      modifies this`mem, this`slots, this`recs
      ensures Valid()
      ensures recs == old(recs)[k := old(recs)[k].(refs := [s] + old(recs)[k].refs)]
      ensures |slots| == |old(slots)| && slots[s].obj.Chain? && slots[s].marked == old(slots)[s].marked
      ensures slots == old(slots)[s := slots[s]]
    {
      var addr := slots[s].obj.addr;
      assert Stored(mem, slots, recs[k]);
      ThreadKeeps(mem, slots, recs, k, s);
      slots := slots[s := Slot(slots[s].marked, Chain(mem[addr].w))];
      mem := mem[addr := Header(Link(s))];
      recs := recs[k := recs[k].(refs := [s] + recs[k].refs)];
      ScanSameTexts(old(recs), recs, chain, fill, 0, 0, 0);
    }

    /** The size at the end of a string's chain of references. */
    method ChainSize(w: Word, ghost refs: seq<nat>, ghost n: nat) returns (size: nat)
      requires w == ChainWord(refs, 0, n) && Threaded(slots, refs, n)
      ensures size == n
    {
      var word := w;
      ghost var j := 0;
      while word.Link?
        invariant j <= |refs| && word == ChainWord(refs, j, n)
        decreases |refs| - j
      {
        word := slots[word.slot].obj.w;
        j := j + 1;
      }
      size := word.n;
    }

    /** Make every slot of a chain refer to `addr`; the word at the end of the chain is the size. */
    method Unthread(w: Word, addr: nat, ghost refs: seq<nat>, ghost n: nat) returns (size: nat)
      requires w == ChainWord(refs, 0, n) && Threaded(slots, refs, n) && Distinct(refs)
      modifies this`slots
      ensures size == n && |slots| == |old(slots)|
      ensures Repointed(slots, old(slots), refs, addr)
      ensures forall s :: 0 <= s < |slots| && s !in refs ==> slots[s] == old(slots)[s]
    {
      hide Unthreading, Threaded, Distinct, Repointed;
      var word := w;
      ghost var j, j' := 0, 1;
      UnthreadStart(slots, refs, n, addr);
      while word.Link?
        invariant j <= |refs| && j' == j + 1 && word == ChainWord(refs, j, n)
        invariant Unthreading(slots, old(slots), refs, addr, j)
        decreases |refs| - j
      {
        var s := word.slot;
        UnthreadStep(slots, old(slots), refs, n, addr, j, j');
        word := slots[s].obj.w;
        slots := slots[s := Slot(slots[s].marked, Str(addr))];
        j, j' := j', j' + 1;
      }
      UnthreadEnd(slots, old(slots), refs, addr, j);
      size := word.n;
    }

    /** Close out blocks until a string of `size` characters, now at offset `pos` of block
        `chain[f]`, fits. */
    method Fit(size: nat, ghost fill0: seq<nat>, ghost dst: seq<Rec>, ghost f: nat, ghost pos: nat, t0: nat,
               toPos0: nat)
        returns (t: nat, toPos: nat)
      requires Writer(chain, fill, fill0, dst, t0, toPos0)
      requires t0 <= f < |chain| && pos + FullSize(size) <= fill0[chain[f]]
      requires t0 == f ==> toPos0 <= pos
      modifies this`fill
      ensures Writer(chain, fill, fill0, dst, t, toPos)
      ensures toPos + FullSize(size) <= BLOCK
      ensures t0 <= t <= f && (t == f ==> toPos <= pos) && (t == t0 ==> toPos == toPos0)
    {
      t, toPos := t0, toPos0;
      while toPos + FullSize(size) > Max(fill[chain[t]], BLOCK)
        invariant Writer(chain, fill, fill0, dst, t, toPos)
        invariant t0 <= t <= f && (t == f ==> toPos <= pos) && (t == t0 ==> toPos == toPos0)
        decreases f - t
      {
        ghost var before := fill;
        fill := fill[chain[t] := toPos];
        PlacedFrame(dst, dst, chain, before, fill, |dst|, t, toPos);
        t := t + 1;
        toPos := 0;
      }
    }

    /** Copy the string at `a` down to `to` and make its chain of references follow. */
    method Relocate(a: nat, to: nat, size: nat, ghost r: Rec)
      requires Stored(mem, slots, r) && Distinct(r.refs)
      requires a == r.addr && to <= a && size == |r.text|
      modifies this`mem, this`slots
      ensures mem == Slid(old(mem), r, to) && |mem| == |old(mem)|
      ensures |slots| == |old(slots)| && Repointed(slots, old(slots), r.refs, to)
      ensures forall s :: 0 <= s < |slots| && s !in r.refs ==> slots[s] == old(slots)[s]
    {
      hide Repointed, Stored, Distinct, Slid;
      StoredAt(mem, slots, r);
      SlideIs(mem, r, to);
      var n := size + 1 + INT_SIZE;
      if a != to {
        mem := mem[..to] + mem[a..a + n] + mem[to + n..];
      }
      var size' := Unthread(mem[to].w, to, r.refs, |r.text|);
      mem := mem[to := Header(Size(size'))];
    }

    /** The live case of the scan: find room, slide the string, resolve its chain. */
    method MoveLive(f: nat, pos: nat, size: nat, t0: nat, toPos0: nat, ghost z: Start, ghost k: nat, ghost k': nat,
                    ghost dst0: seq<Rec>)
        returns (t: nat, toPos: nat, ghost dst: seq<Rec>)
      requires chain == z.chain && k' == k + 1 && k < |z.recs| && z.recs[k].refs != [] && size == |z.recs[k].text|
      requires Scanning(z, mem, slots, fill, k, f, pos, t0, toPos0, dst0) && pos < z.fill[z.chain[f]]
      requires z.recs[k].addr == z.chain[f] * BLOCK + pos && pos + FullSize(size) <= z.fill[z.chain[f]]
      modifies this`mem, this`slots, this`fill
      ensures |mem| == |old(mem)|
      ensures Writer(z.chain, fill, z.fill, dst, t, toPos)
      ensures t0 <= t <= f && (t == f ==> toPos <= pos + FullSize(size)) && toPos > 0
      ensures TotalSize(dst) == TotalSize(dst0) + size
      ensures Progress(mem, slots, z, k', dst, t, toPos)
    {
      var room;
      t, room := Fit(size, z.fill, dst0, f, pos, t0, toPos0);
      var to := chain[t] * BLOCK + room;
      AddressOrder(chain, t0, toPos0, t, room);
      AddressOrder(chain, t, room, f, pos);
      assert Stored(mem, slots, z.recs[k]);
      Relocate(chain[f] * BLOCK + pos, to, size, z.recs[k]);
      toPos := room + FullSize(size);
      dst := MoveLiveStep(old(mem), old(slots), mem, slots, z, k, k', dst0, t0, toPos0, fill, t, room, to, toPos);
    }

    /** One string of the scan: the offset of the next one, and the size of this one if it lives. */
    method CompactOne(f: nat, pos0: nat, t0: nat, toPos0: nat, ghost z: Start, ghost k0: nat, ghost dst0: seq<Rec>)
        returns (pos: nat, counted: nat, t: nat, toPos: nat, ghost k: nat, ghost dst: seq<Rec>)
      requires chain == z.chain
      requires Scanning(z, mem, slots, fill, k0, f, pos0, t0, toPos0, dst0) && pos0 < z.fill[z.chain[f]]
      modifies this`mem, this`slots, this`fill
      ensures |mem| == |old(mem)|
      ensures TotalSize(dst) == TotalSize(dst0) + counted
      ensures k0 < k
      ensures Scanning(z, mem, slots, fill, k, f, pos, t, toPos, dst)
    {
      hide Scan, Writer, Between, Stored, Ordered, RefsApart, BlocksOk;
      var size;
      NextString(z, mem, slots, fill, k0, f, pos0, t0, toPos0, dst0, chain[f] * BLOCK + pos0);
      var w := mem[chain[f] * BLOCK + pos0].w;
      t, toPos, k, dst, counted := t0, toPos0, k0 + 1, dst0, 0;
      if w.Link? {
        size := ChainSize(w, z.recs[k0].refs, |z.recs[k0].text|);
        counted := size;
        t, toPos, dst := MoveLive(f, pos0, size, t0, toPos0, z, k0, k, dst0);
      } else {
        size := w.n;
        SkipStep(mem, slots, z.slots, z.recs, k0, dst0, z.chain[t0] * BLOCK + toPos0);
        assert Progress(mem, slots, z, k, dst, t, toPos);
      }
      pos := pos0 + FullSize(size);
      ScanOn(z, mem, slots, fill, k0, f, pos0, t, toPos, dst, k, pos);
    }

    /** Scan block `chain[f]`. */
    method CompactBlock(f: nat, t0: nat, toPos0: nat, ghost z: Start, ghost k0: nat, ghost dst0: seq<Rec>)
        returns (counted: nat, t: nat, toPos: nat, ghost k: nat, ghost dst: seq<Rec>)
      requires z.chain == chain
      requires Scanning(z, mem, slots, fill, k0, f, 0, t0, toPos0, dst0)
      modifies this`mem, this`slots, this`fill
      ensures |mem| == |old(mem)|
      ensures Scanning(z, mem, slots, fill, k, f, z.fill[chain[f]], t, toPos, dst)
      ensures TotalSize(dst) == TotalSize(dst0) + counted
    {
      hide Scan, Between, Placed, Increasing, Ordered, RefsApart;
      t, toPos, k, dst, counted := t0, toPos0, k0, dst0, 0;
      var pos: nat := 0;
      while pos < fill[chain[f]]
        invariant |mem| == |old(mem)| && chain == z.chain
        invariant Scanning(z, mem, slots, fill, k, f, pos, t, toPos, dst)
        invariant TotalSize(dst) == TotalSize(dst0) + counted
        decreases |z.recs| - k
      {
        var c;
        pos, c, t, toPos, k, dst := CompactOne(f, pos, t, toPos, z, k, dst);
        counted := counted + c;
      }
    }

    /** Free the blocks that became empty further back in the chain. */
    method DropEmptyBlocks()
      requires chain != [] && BlocksOk(chain, fill) && Scan(recs, chain, fill, 0, 0, 0)
      modifies this`chain
      ensures BlocksOk(chain, fill) && Scan(recs, chain, fill, 0, 0, 0)
      ensures Trimmed(old(chain), chain, fill) && Filled(chain, fill, |chain|)
    {
      hide Scan;
      var i := 0;
      while i + 1 < |chain|
        invariant i < |chain| && BlocksOk(chain, fill) && Scan(recs, chain, fill, 0, 0, 0)
        invariant Trimmed(old(chain), chain, fill) && Filled(chain, fill, i + 1)
        decreases |chain| - i
      {
        if fill[chain[i + 1]] == 0 {
          DropBlock(recs, old(chain), chain, fill, i + 1);
          chain := chain[..i + 1] + chain[i + 2..];
        } else {
          i := i + 1;
        }
      }
    }

    /** Scan all the blocks. */
    method CompactBlocks(ghost z: Start) returns (total: nat, t: nat, toPos: nat, ghost dst: seq<Rec>)
      requires Valid() && z == Start(chain, fill, slots, recs)
      modifies this`mem, this`slots, this`fill
      ensures |mem| == |old(mem)|
      ensures Settling(z, mem, slots, fill, t, toPos, dst)
      ensures total == TotalSize(dst)
    {
      hide Scan, Scanning, Settling, AllStored, Ordered, RefsApart;
      var f: nat := 0;
      ghost var k := 0;
      t, toPos, total, dst := 0, 0, 0, [];
      StartScan(z, mem, slots);
      while f < |chain|
        invariant chain == z.chain && |mem| == |old(mem)|
        invariant if f < |chain| then Scanning(z, mem, slots, fill, k, f, 0, t, toPos, dst)
                  else Settling(z, mem, slots, fill, t, toPos, dst)
        invariant total == TotalSize(dst)
      {
        var c;
        c, t, toPos, k, dst := CompactBlock(f, t, toPos, z, k, dst);
        total := total + c;
        ghost var f0 := f;
        f := f + 1;
        ScanNext(z, mem, slots, fill, k, f0, t, toPos, dst, f);
      }
    }

    /** Close out the last block still used and forget the blocks that follow. */
    method CloseOut(t: nat, toPos: nat, ghost z: Start, ghost dst: seq<Rec>)
      requires z.chain == chain && Settling(z, mem, slots, fill, t, toPos, dst)
      requires |mem| == |fill| * BLOCK
      modifies this`fill, this`chain, this`current, this`recs
      ensures recs == dst && |fill| == |old(fill)|
      ensures chain != [] && chain <= old(chain) && current == chain[|chain| - 1]
      ensures |chain| > 1 ==> fill[current] > 0
      ensures BlocksOk(chain, fill) && Scan(recs, chain, fill, 0, 0, 0)
    {
      ghost var fill1 := fill;
      fill := fill[chain[t] := toPos];
      FinishScan(chain, fill1, z.fill, dst, t, toPos, fill);
      current := chain[t];
      chain := chain[..t + 1];
      recs := dst;
    }

    /** Slide the live strings down, resolve their chains, drop the blocks no longer needed. */
    method CompactStrings() returns (total: nat)
      requires Valid()
      modifies this
      ensures Valid()
      ensures Moved(mem, slots, old(slots), Live(old(recs), |old(recs)|), recs)
      ensures total == TotalSize(recs)
      ensures chain[0] == old(chain)[0] && |mem| == |old(mem)|
      ensures forall b :: b in chain ==> b in old(chain)
      ensures forall i :: 0 < i < |chain| ==> fill[chain[i]] > 0
    {
      ghost var z := Start(chain, fill, slots, recs);
      var t, toPos;
      ghost var dst;
      total, t, toPos, dst := CompactBlocks(z);
      CloseOut(t, toPos, z, dst);
      RefsApartEmpty(dst);
      DropEmptyBlocks();
    }

    /** The string fits in the current block. */
    method AppendToBlock(text: string) returns (addr: nat)
      requires Valid() && FullSize(|text|) <= BLOCK - fill[current]
      modifies this`mem, this`fill, this`recs
      ensures Valid()
      ensures recs == old(recs) + [Rec(addr, text, [])]
    {
      hide Scan, AllStored, Ordered, RefsApart, Written;
      addr := current * BLOCK + fill[current];
      AppendRoom(recs, chain, fill, addr, text);
      mem := Written(mem, addr, text);
      AllocateKeeps(old(mem), mem, slots, recs, Rec(addr, text, []));
      fill := fill[current := fill[current] + FullSize(|text|)];
      recs := recs + [Rec(addr, text, [])];
    }

    /** Make a new current block and start it off with the string. */
    method AppendNewBlock(text: string) returns (addr: nat)
      requires Valid() && FullSize(|text|) <= BLOCK
      modifies this
      ensures Valid() && slots == old(slots) && old(chain) <= chain
      ensures recs == old(recs) + [Rec(addr, text, [])]
    {
      hide Scan, AllStored, Ordered, RefsApart, Written;
      var n := FullSize(|text|);
      addr := |fill| * BLOCK;
      ghost var rec := Rec(addr, text, []);
      ScanBelow(recs, chain, fill, 0, 0, 0);
      ScanNewBlock(recs, chain, fill, 0, 0, 0, rec);
      mem := Written(mem + seq(BLOCK, _ => Pad), addr, text);
      AllocateKeeps(old(mem), mem, slots, recs, rec);
      current := |fill|;
      chain := chain + [current];
      fill := fill + [n];
      recs := recs + [rec];
    }

    /** make_string.  A string too big for the current block and above BLOCK_OUTSIZE gets a block
        of its own, which this model does not hold. */
    method MakeString(text: string) returns (r: Allocation)
      requires Valid()
      modifies this
      ensures Valid() && slots == old(slots)
      ensures r.Large? <==> FullSize(|text|) > BLOCK - old(fill[current]) && FullSize(|text|) > BLOCK_OUTSIZE
      ensures r.Large? ==> mem == old(mem) && recs == old(recs) && chain == old(chain) && fill == old(fill)
      ensures r.Small? ==> recs == old(recs) + [Rec(r.addr, text, [])] && old(chain) <= chain
    {
      if FullSize(|text|) <= BLOCK - fill[current] {
        var addr := AppendToBlock(text);
        r := Small(addr);
      } else if FullSize(|text|) > BLOCK_OUTSIZE {
        r := Large;
      } else {
        var addr := AppendNewBlock(text);
        r := Small(addr);
      }
    }
  }
}
