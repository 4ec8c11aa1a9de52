/** The tags collected from files: a tree that is a list in etags mode and a search tree in ctags mode. */
module Etags {

  const DEL: char := 127 as char
  const SOH: char := 1 as char
  const FORM_FEED: char := 12 as char

  /** A tag.  `file` is where the name of its file is kept, `fileName` is that name. */
  datatype Entry = Entry(name: string, file: nat, fileName: string, isFunc: bool, rewritten: bool, lno: int, cno: int,
                         pat: string)

  // ---- numbers ----

  function Digits(n: nat): (s: string)
    ensures |s| >= 1
  {
    var d := [(n % 10 + 48) as char];
    if n < 10 then d else Digits(n / 10) + d
  }

  /** %d. */
  function Decimal(n: int): string {
    if n < 0 then "-" + Digits(-n) else Digits(n)
  }

  /** The number written in decimal. */
  ghost function Number(s: string): int {
    if s != [] && s[0] == '-' then -Natural(s[1..]) else Natural(s)
  }

  ghost function Natural(s: string): int {
    if s == [] then 0 else 10 * Natural(s[..|s| - 1]) + (s[|s| - 1] as int - '0' as int)
  }

  ghost predicate AllDigits(s: string) {
    forall i :: 0 <= i < |s| ==> '0' <= s[i] <= '9'
  }

  lemma {:induction false} DigitsBack(n: nat)
    ensures AllDigits(Digits(n)) && Natural(Digits(n)) == n
  {
    if n >= 10 {
      DigitsBack(n / 10);
      var s := Digits(n);
      assert s[..|s| - 1] == Digits(n / 10);
    }
  }

  /** A number is read back from its digits and sign, and nothing else is in it. */
  lemma DecimalBack(n: int)
    ensures var s := Decimal(n);
            && Number(s) == n
            && AllDigits(if n < 0 then s[1..] else s) && (n < 0 ==> s[0] == '-')
  {
    DigitsBack(if n < 0 then -n else n);
    if n < 0 {
      assert ("-" + Digits(-n))[1..] == Digits(-n);
    }
  }

  lemma NotInDecimal(n: int, c: char)
    requires !('0' <= c <= '9') && c != '-'
    ensures c !in Decimal(n)
  {
    DecimalBack(n);
    var s := Decimal(n);
    forall i | 0 <= i < |s| ensures s[i] != c {
      if n < 0 && i > 0 {
        assert s[i] == s[1..][i - 1];
      }
    }
  }

  /** Division as C does it. */
  function Quotient10(n: int): int {
    if n < 0 then -(-n / 10) else n / 10
  }

  /** number_len.  It does not count a sign. */
  method NumberLen(num: int) returns (len: nat)
    ensures len + (if num < 0 then 1 else 0) == |Decimal(num)|
  {
    if num == 0 {
      return 1;
    }
    len := 0;
    var n := num;
    while n != 0
      invariant num < 0 ==> n <= 0
      invariant num > 0 ==> n >= 0
      invariant n != 0 ==> len + |Digits(if n < 0 then -n else n)| == |Digits(if num < 0 then -num else num)|
      invariant n == 0 ==> len == |Digits(if num < 0 then -num else num)|
      decreases if n < 0 then -n else n
    {
      n := Quotient10(n);
      len := len + 1;
    }
  }

  // ---- names in order ----

  /** strcmp. */
  function Compare(a: string, b: string): int {
    if a == [] && b == [] then 0
    else if a == [] then -1
    else if b == [] then 1
    else if a[0] != b[0] then a[0] as int - b[0] as int
    else Compare(a[1..], b[1..])
  }

  lemma {:induction false} CompareSwap(a: string, b: string)
    ensures Compare(b, a) == -Compare(a, b)
  {
    if a != [] && b != [] && a[0] == b[0] {
      CompareSwap(a[1..], b[1..]);
    }
  }

  lemma {:induction false} CompareSame(a: string, b: string)
    ensures Compare(a, b) == 0 <==> a == b
  {
    if a != [] && b != [] && a[0] == b[0] {
      CompareSame(a[1..], b[1..]);
      assert a == [a[0]] + a[1..] && b == [b[0]] + b[1..];
    }
  }

  lemma {:induction false} CompareTransitive(a: string, b: string, c: string)
    requires Compare(a, b) < 0 && Compare(b, c) < 0
    ensures Compare(a, c) < 0
  {
    if a != [] && b != [] && c != [] && a[0] == b[0] == c[0] {
      CompareTransitive(a[1..], b[1..], c[1..]);
    }
  }

  /** `a` comes before `b`: they agree up to some place, where `a` ends or has the lesser character. */
  ghost predicate Before(a: string, b: string) {
    exists k: nat :: Differ(a, b, k)
  }

  ghost predicate Differ(a: string, b: string, k: nat) {
    k <= |a| && k < |b| && a[..k] == b[..k] && (k == |a| || a[k] < b[k])
  }

  lemma {:induction false} CompareIs(a: string, b: string)
    ensures Compare(a, b) < 0 <==> Before(a, b)
  {
    if a == [] && b != [] {
      assert Differ(a, b, 0);
    } else if a != [] && b != [] {
      if a[0] == b[0] {
        CompareIs(a[1..], b[1..]);
        BeforeLater(a, b);
      } else if a[0] < b[0] {
        assert Differ(a, b, 0);
      } else if Before(a, b) {
        NotBefore(a, b);
      }
    }
  }

  lemma NotBefore(a: string, b: string)
    requires a != [] && b != [] && a[0] > b[0]
    ensures !Before(a, b)
  {
    forall k: nat ensures !Differ(a, b, k) {
      if 0 < k <= |a| && k < |b| {
        assert a[..k][0] != b[..k][0];
      }
    }
  }

  lemma BeforeLater(a: string, b: string)
    requires a != [] && b != [] && a[0] == b[0]
    ensures Before(a, b) <==> Before(a[1..], b[1..])
  {
    if Before(a, b) {
      var k: nat :| Differ(a, b, k);
      if k > 0 {
        assert a[1..][..k - 1] == a[..k][1..] == b[..k][1..] == b[1..][..k - 1];
        assert Differ(a[1..], b[1..], k - 1);
      }
    }
    if Before(a[1..], b[1..]) {
      var k: nat :| Differ(a[1..], b[1..], k);
      assert a[..k + 1] == [a[0]] + a[1..][..k] == [b[0]] + b[1..][..k] == b[..k + 1];
      assert Differ(a, b, k + 1);
    }
  }

  ghost predicate Increasing(es: seq<Entry>) {
    forall i, j :: 0 <= i < j < |es| ==> Compare(es[i].name, es[j].name) < 0
  }

  // ---- adding a tag ----

  /** Put `e` where it belongs by its name, unless there is one of that name. */
  function Added(es: seq<Entry>, e: Entry): (r: seq<Entry>) {
    if es == [] then [e]
    else
      var dif := Compare(e.name, es[0].name);
      if dif == 0 then es else if dif < 0 then [e] + es else [es[0]] + Added(es[1..], e)
  }

  /** What a search tree does: look at the tag in the middle, and go left or right. */
  lemma {:induction false} AddedAt(l: seq<Entry>, x: Entry, r: seq<Entry>, e: Entry)
    requires Increasing(l + [x] + r)
    ensures var dif := Compare(e.name, x.name);
            Added(l + [x] + r, e) == if dif == 0 then l + [x] + r
                                     else if dif < 0 then Added(l, e) + [x] + r else l + [x] + Added(r, e)
    decreases |l|
  {
    hide Compare, Added, Increasing;
    if l == [] {
      assert l + [x] + r == [x] + r && l + [x] + Added(r, e) == [x] + Added(r, e);
      AddedNothing(e);
      AddedFront(x, r, e);
    } else {
      var h, t := l[0], l[1..];
      var es := l + [x] + r;
      assert l == [h] + t;
      Regroup(h, t, x, r);
      assert es[1..] == t + [x] + r && es[|l|] == x;
      TailIncreasing(es);
      AddedAt(t, x, r, e);
      FirstBefore(es, |l|);
      AddedNear(e.name, h.name, x.name);
      AddedFront(h, t, e);
      AddedFront(h, t + [x] + r, e);
      Regroup(h, Added(t, e), x, r);
      Regroup(h, t, x, Added(r, e));
      Regroup(e, l, x, r);
    }
  }

  lemma AddedFront(h: Entry, t: seq<Entry>, e: Entry)
    ensures var dif := Compare(e.name, h.name);
            Added([h] + t, e) == if dif == 0 then [h] + t else if dif < 0 then [e] + ([h] + t) else [h] + Added(t, e)
  {
    assert ([h] + t)[1..] == t;
  }

  lemma Regroup(h: Entry, t: seq<Entry>, x: Entry, r: seq<Entry>)
    ensures [h] + (t + [x] + r) == [h] + t + [x] + r
  {
  }

  lemma AddedNothing(e: Entry)
    ensures Added([], e) == [e]
  {
  }

  lemma FirstBefore(es: seq<Entry>, i: nat)
    requires Increasing(es) && 0 < i < |es|
    ensures Compare(es[0].name, es[i].name) < 0
  {
  }

  lemma TailIncreasing(es: seq<Entry>)
    requires Increasing(es) && es != []
    ensures Increasing(es[1..])
  {
    forall i, j | 0 <= i < j < |es| - 1 ensures Compare(es[1..][i].name, es[1..][j].name) < 0 {
      assert es[1..][i] == es[i + 1] && es[1..][j] == es[j + 1];
    }
  }

  /** A name up to a lesser one comes before the greater. */
  lemma AddedNear(name: string, lesser: string, greater: string)
    requires Compare(lesser, greater) < 0
    ensures Compare(name, lesser) <= 0 ==> Compare(name, greater) < 0
  {
    CompareSame(name, lesser);
    if Compare(name, lesser) < 0 {
      CompareTransitive(name, lesser, greater);
    }
  }

  /** The order stays strict, the tags that were there stay, and the new one is let in just if its name is new. */
  lemma {:induction false} AddedKeeps(es: seq<Entry>, e: Entry)
    requires Increasing(es)
    ensures Increasing(Added(es, e))
    ensures forall x :: x in Added(es, e) <==> x in es || (x == e && forall y :: y in es ==> y.name != e.name)
  {
    if es != [] {
      var rest := es[1..];
      assert es == [es[0]] + rest;
      TailIncreasing(es);
      AddedKeeps(rest, e);
      CompareSame(e.name, es[0].name);
      CompareSwap(e.name, es[0].name);
      if Compare(e.name, es[0].name) < 0 {
        FrontIncreasing(e, es);
      } else if Compare(e.name, es[0].name) > 0 {
        forall x | x in Added(rest, e) ensures Compare(es[0].name, x.name) < 0 {
          if x in rest {
            var i :| 0 <= i < |rest| && rest[i] == x;
            assert x == es[i + 1];
          }
        }
        BeforeIncreasing(es[0], Added(rest, e));
      }
    }
  }

  lemma BeforeIncreasing(e: Entry, es: seq<Entry>)
    requires Increasing(es) && forall x :: x in es ==> Compare(e.name, x.name) < 0
    ensures Increasing([e] + es)
  {
  }

  lemma FrontIncreasing(e: Entry, es: seq<Entry>)
    requires Increasing(es) && es != [] && Compare(e.name, es[0].name) < 0
    ensures Increasing([e] + es) && forall y :: y in es ==> y.name != e.name
  {
    forall x | x in es ensures Compare(e.name, x.name) < 0 && x.name != e.name {
      var i :| 0 <= i < |es| && es[i] == x;
      if i > 0 {
        CompareTransitive(e.name, es[0].name, x.name);
      }
      CompareSame(e.name, x.name);
    }
    BeforeIncreasing(e, es);
  }

  function AddedAll(es: seq<Entry>): seq<Entry> {
    if es == [] then [] else Added(AddedAll(es[..|es| - 1]), es[|es| - 1])
  }

  /** The tag at `i` is the first of its name. */
  ghost predicate First(es: seq<Entry>, i: nat)
    requires i < |es|
  {
    forall j :: 0 <= j < i ==> es[j].name != es[i].name
  }

  /** Whatever tags come in whatever order, ctags ends up with the first of each name, in order of names. */
  lemma {:induction false} FirstOfEachName(es: seq<Entry>)
    ensures Increasing(AddedAll(es))
    ensures forall x :: x in AddedAll(es) <==> exists i :: 0 <= i < |es| && es[i] == x && First(es, i)
  {
    hide Added, First;
    if es != [] {
      var n := |es| - 1;
      var es0, e := es[..n], es[n];
      FirstOfEachName(es0);
      AddedKeeps(AddedAll(es0), e);
      NamesKnown(es0, e.name);
      FirstOn(es);
      assert AddedAll(es) == Added(AddedAll(es0), e);
      forall x | x in AddedAll(es)
        ensures exists i :: 0 <= i < |es| && es[i] == x && First(es, i)
      {
        if x in AddedAll(es0) {
          var i :| 0 <= i < n && es0[i] == x && First(es0, i);
          assert es[i] == x && First(es, i);
        } else {
          assert x == es[n] && First(es, n);
        }
      }
      forall i | 0 <= i < |es| && First(es, i)
        ensures es[i] in AddedAll(es)
      {
        if i < n {
          assert es0[i] == es[i] && First(es0, i);
        } else {
          assert forall y :: y in AddedAll(es0) ==> y.name != e.name;
        }
      }
    }
  }

  lemma FirstOn(es: seq<Entry>)
    requires es != []
    ensures var n := |es| - 1;
            && (forall i :: 0 <= i < n ==> (First(es[..n], i) <==> First(es, i)))
            && (First(es, n) <==> !exists j :: 0 <= j < n && es[..n][j].name == es[n].name)
  {
    var n := |es| - 1;
    if j :| 0 <= j < n && es[j].name == es[n].name {
      assert es[..n][j].name == es[n].name;
    }
    forall i | 0 <= i < n ensures First(es[..n], i) <==> First(es, i) {
      assert forall j :: 0 <= j <= i ==> es[..n][j] == es[j];
    }
  }

  /** A name that came in is the name of some tag kept. */
  lemma NamesKnown(es: seq<Entry>, name: string)
    requires forall x :: x in AddedAll(es) <==> exists i :: 0 <= i < |es| && es[i] == x && First(es, i)
    ensures (exists y :: y in AddedAll(es) && y.name == name) <==> exists j :: 0 <= j < |es| && es[j].name == name
  {
    if j :| 0 <= j < |es| && es[j].name == name {
      var i := FirstNamed(es, j);
      assert es[i] in AddedAll(es);
    }
  }

  lemma {:induction false} FirstNamed(es: seq<Entry>, j: nat) returns (i: nat)
    requires j < |es|
    ensures i <= j && es[i].name == es[j].name && First(es, i)
  {
    if k :| 0 <= k < j && es[k].name == es[j].name {
      i := FirstNamed(es, k);
    } else {
      i := j;
    }
  }

  // ---- the tree ----

  class Node {
    const entry: Entry
    var left: Node?
    var right: Node?
    var beenWarned: bool

    constructor (entry: Entry)
      ensures this.entry == entry && left == null && right == null && !beenWarned
    {
      this.entry, left, right, beenWarned := entry, null, null, false;
    }

    /** add_node in ctags mode, below this node.  `added` says that the node is in the tree now. */
    method Insert(node: Node, ghost t: Tree) returns (added: bool, ghost t': Tree)
      requires Is(this, t) && Increasing(Entries(t))
      requires node !in Nodes(t) && Is(node, Alone(node))
      modifies Nodes(t)
      ensures Is(this, t') && Nodes(t') == Nodes(t) + if added then {node} else {}
      ensures Entries(t') == Added(Entries(t), node.entry)
      ensures !added ==> t' == t
      decreases t
    {
      hide Compare, Added, Increasing, Is, Nodes, Entries;
      Parts(this, t);
      assert allocated(Nodes(t.left)) && allocated(Nodes(t.right));
      AddedInTree(t, node);
      var dif := Compare(node.entry.name, entry.name);
      if dif == 0 {
        if node.entry.file != entry.file {
          beenWarned := true;
        }
        Whole(t.left, this, t.right);
        added, t' := false, t;
      } else if dif < 0 {
        ghost var l;
        if left == null {
          Bare(t.left);
          left := node;
          added, l := true, Alone(node);
        } else {
          added, l := left.Insert(node, t.left);
        }
        t' := Fork(l, this, t.right);
        Whole(l, this, t.right);
      } else {
        ghost var r;
        if right == null {
          Bare(t.right);
          right := node;
          added, r := true, Alone(node);
        } else {
          added, r := right.Insert(node, t.right);
        }
        t' := Fork(t.left, this, r);
        Whole(t.left, this, r);
      }
    }
  }

  datatype Tree = Leaf | Fork(left: Tree, node: Node, right: Tree)

  ghost function Nodes(t: Tree): set<Node> {
    match t
    case Leaf => {}
    case Fork(l, x, r) => Nodes(l) + {x} + Nodes(r)
  }

  /** What hangs from `n` is `t`. */
  ghost predicate Is(n: Node?, t: Tree)
    reads Nodes(t)
  {
    match t
    case Leaf => n == null
    case Fork(l, x, r) =>
      && n == x && Is(x.left, l) && Is(x.right, r)
      && x !in Nodes(l) + Nodes(r) && Nodes(l) !! Nodes(r)
  }

  /** The tags from left to right. */
  ghost function Entries(t: Tree): seq<Entry> {
    match t
    case Leaf => []
    case Fork(l, x, r) => Entries(l) + [x.entry] + Entries(r)
  }

  ghost function Alone(x: Node): (t: Tree)
    ensures Nodes(t) == {x} && Entries(t) == [x.entry]
  {
    assert Nodes(Leaf) == {} && Entries(Leaf) == [];
    Fork(Leaf, x, Leaf)
  }

  lemma Parts(n: Node?, t: Tree)
    requires Is(n, t) && n != null
    ensures t.Fork? && t.node == n && Is(n.left, t.left) && Is(n.right, t.right)
    ensures Nodes(t) == Nodes(t.left) + {n} + Nodes(t.right)
    ensures n !in Nodes(t.left) && n !in Nodes(t.right) && Nodes(t.left) !! Nodes(t.right)
  {
  }

  lemma Whole(l: Tree, x: Node, r: Tree)
    requires Is(x.left, l) && Is(x.right, r) && x !in Nodes(l) && x !in Nodes(r) && Nodes(l) !! Nodes(r)
    ensures Is(x, Fork(l, x, r)) && Nodes(Fork(l, x, r)) == Nodes(l) + {x} + Nodes(r)
    ensures Entries(Fork(l, x, r)) == Entries(l) + [x.entry] + Entries(r)
  {
  }

  lemma Bare(t: Tree)
    requires Is(null, t)
    ensures Nodes(t) == {} && Entries(t) == []
  {
  }

  /** Which way to go, and that it leads to the right place. */
  lemma AddedInTree(t: Tree, node: Node)
    requires t.Fork? && Increasing(Entries(t))
    ensures Increasing(Entries(t.left)) && Increasing(Entries(t.right)) && Added([], node.entry) == [node.entry]
    ensures var dif := Compare(node.entry.name, t.node.entry.name);
            Added(Entries(t), node.entry) ==
            if dif == 0 then Entries(t)
            else if dif < 0 then Added(Entries(t.left), node.entry) + [t.node.entry] + Entries(t.right)
            else Entries(t.left) + [t.node.entry] + Added(Entries(t.right), node.entry)
  {
    hide Compare, Added, Increasing;
    AddedAt(Entries(t.left), t.node.entry, Entries(t.right), node.entry);
    AddedNothing(node.entry);
    PartsIncreasing(Entries(t.left), t.node.entry, Entries(t.right));
  }

  lemma PartsIncreasing(l: seq<Entry>, x: Entry, r: seq<Entry>)
    requires Increasing(l + [x] + r)
    ensures Increasing(l) && Increasing(r)
  {
    var es := l + [x] + r;
    assert forall i :: 0 <= i < |l| ==> l[i] == es[i];
    assert forall i :: 0 <= i < |r| ==> r[i] == es[|l| + 1 + i];
  }

  /** In etags mode nothing is ever on the left. */
  ghost predicate Linear(t: Tree) {
    match t
    case Leaf => true
    case Fork(l, _, r) => l == Leaf && Linear(r)
  }

  ghost function Last(t: Tree): Node
    requires t != Leaf
  {
    if t.right == Leaf then t.node else Last(t.right)
  }

  ghost function Append(t: Tree, node: Node): Tree {
    match t
    case Leaf => Fork(Leaf, node, Leaf)
    case Fork(l, x, r) => Fork(l, x, Append(r, node))
  }

  /** `t` hangs from `n`, as far as can be said without looking at its last node. */
  ghost predicate Leading(n: Node?, t: Tree, last: Node)
    requires t != Leaf
    reads Nodes(t) - {last}
  {
    && n == t.node && t.left == Leaf
    && if t.right == Leaf then t.node == last
       else t.node != last && t.node !in Nodes(t.right) && t.node.left == null && Leading(t.node.right, t.right, last)
  }

  lemma {:induction false} LastOpen(n: Node?, t: Tree)
    requires Is(n, t) && Linear(t) && t != Leaf
    ensures Last(t) in Nodes(t) && Last(t).left == null && Last(t).right == null && Leading(n, t, Last(t))
  {
    if t.right != Leaf {
      LastOpen(t.node.right, t.right);
    }
  }

  /** Once the last node has one on its right, that is the last. */
  lemma {:induction false} Appended(n: Node?, t: Tree, last: Node, node: Node)
    requires t != Leaf && Leading(n, t, last) && last.left == null && last.right == node && last in Nodes(t)
    requires node !in Nodes(t) && Is(node, Fork(Leaf, node, Leaf))
    ensures var t' := Append(t, node);
            && Is(n, t') && Linear(t') && Last(t') == node && Nodes(t') == Nodes(t) + {node}
            && Entries(t') == Entries(t) + [node.entry]
  {
    if t.right == Leaf {
    } else {
      Appended(t.node.right, t.right, last, node);
      assert Append(t, node) == Fork(t.left, t.node, Append(t.right, node));
    }
  }

  // ---- what is written ----

  /** The escapes that keep a pattern from ending early. */
  function Escaped(pat: string, delimiter: char): string {
    if pat == [] then []
    else (if pat[0] == '\\' || pat[0] == delimiter then ['\\'] else []) + [pat[0]] + Escaped(pat[1..], delimiter)
  }

  /** What is in front of the first delimiter that is not escaped, its escapes undone, and what follows. */
  function ReadPattern(s: string, delimiter: char): (string, string) {
    if s == [] then ([], [])
    else if s[0] == '\\' && |s| > 1 then
      var r := ReadPattern(s[2..], delimiter);
      ([s[1]] + r.0, r.1)
    else if s[0] == delimiter then ([], s[1..])
    else
      var r := ReadPattern(s[1..], delimiter);
      ([s[0]] + r.0, r.1)
  }

  /** No pattern ends early, and every one is read back. */
  lemma {:induction false} PatternReadBack(pat: string, delimiter: char, rest: string)
    requires delimiter != '\\'
    ensures ReadPattern(Escaped(pat, delimiter) + [delimiter] + rest, delimiter) == (pat, rest)
  {
    hide ReadPattern, Escaped;
    ReadEnd(delimiter, rest);
    var s := Escaped(pat, delimiter) + [delimiter] + rest;
    if pat == [] {
      assert s == [delimiter] + rest && s[1..] == rest;
    } else {
      var tail := Escaped(pat[1..], delimiter) + [delimiter] + rest;
      PatternReadBack(pat[1..], delimiter, rest);
      EscapedOne(pat, delimiter, rest, s, tail);
      ReadOne(s, delimiter);
      assert pat == [pat[0]] + pat[1..];
    }
  }

  lemma ReadEnd(delimiter: char, rest: string)
    requires delimiter != '\\'
    ensures Escaped([], delimiter) == [] && ReadPattern([delimiter] + rest, delimiter) == ([], rest)
  {
    assert ([delimiter] + rest)[1..] == rest;
  }

  lemma EscapedOne(pat: string, delimiter: char, rest: string, s: string, tail: string)
    requires pat != [] && s == Escaped(pat, delimiter) + [delimiter] + rest
    requires tail == Escaped(pat[1..], delimiter) + [delimiter] + rest
    ensures |s| > 1
    ensures if pat[0] == '\\' || pat[0] == delimiter then s[0] == '\\' && s[1] == pat[0] && s[2..] == tail
            else s[0] == pat[0] && s[1..] == tail
  {
    hide *;
    EscapedHead(pat, delimiter);
    if pat[0] == '\\' || pat[0] == delimiter {
      assert s == ['\\'] + [pat[0]] + Escaped(pat[1..], delimiter) + [delimiter] + rest;
    } else {
      assert s == [pat[0]] + Escaped(pat[1..], delimiter) + [delimiter] + rest;
    }
  }

  lemma EscapedHead(pat: string, delimiter: char)
    requires pat != []
    ensures Escaped(pat, delimiter) ==
            (if pat[0] == '\\' || pat[0] == delimiter then ['\\'] else []) + [pat[0]] + Escaped(pat[1..], delimiter)
  {
  }

  lemma ReadOne(s: string, delimiter: char)
    requires |s| > 1
    ensures ReadPattern(s, delimiter) ==
            if s[0] == '\\' then var r := ReadPattern(s[2..], delimiter); ([s[1]] + r.0, r.1)
            else if s[0] == delimiter then ([], s[1..])
            else var r := ReadPattern(s[1..], delimiter); ([s[0]] + r.0, r.1)
  {
  }

  datatype Style = EtagsStyle | CtagsStyle(delimiter: char)

  function Line(style: Style, e: Entry): string {
    match style
    case EtagsStyle =>
      (if e.rewritten then e.name + [DEL] + e.pat + [SOH] else e.pat + [DEL])
      + Decimal(e.lno) + "," + Decimal(e.cno) + "\n"
    case CtagsStyle(delimiter) =>
      e.name + "\t" + e.fileName + "\t"
      + (if e.isFunc then [delimiter] + "^" + Escaped(e.pat, delimiter) + [delimiter] else Decimal(e.lno)) + "\n"
  }

  // ---- a line read back into its fields ----

  /** What is in front of a character and what is behind it. */
  datatype Cut = NoCut | Cut(front: string, back: string)

  function CutFirst(s: string, c: char): Cut {
    if s == [] then NoCut
    else if s[0] == c then Cut([], s[1..])
    else
      var r := CutFirst(s[1..], c);
      if r.NoCut? then NoCut else Cut([s[0]] + r.front, r.back)
  }

  function CutLast(s: string, c: char): Cut {
    var n := |s| - 1;
    if s == [] then NoCut
    else if s[n] == c then Cut(s[..n], [])
    else
      var r := CutLast(s[..n], c);
      if r.NoCut? then NoCut else Cut(r.front, r.back + [s[n]])
  }

  lemma {:induction false} LastAt(a: string, c: char, b: string)
    requires c !in b
    ensures CutLast(a + [c] + b, c) == Cut(a, b)
  {
    var s := a + [c] + b;
    if b == [] {
      assert s == a + [c];
    } else {
      var n := |b| - 1;
      LastAt(a, c, b[..n]);
      assert s[..|s| - 1] == a + [c] + b[..n];
      assert b == b[..n] + [b[n]];
    }
  }

  lemma {:induction false} FirstAt(a: string, c: char, b: string)
    requires c !in a
    ensures CutFirst(a + [c] + b, c) == Cut(a, b)
  {
    var s := a + [c] + b;
    if a == [] {
      assert s == [c] + b && s[1..] == b;
    } else {
      FirstAt(a[1..], c, b);
      assert s[1..] == a[1..] + [c] + b;
      assert a == [a[0]] + a[1..];
    }
  }

  /** A line of etags: behind the last comma is the column, in front of it back to the last DEL, or the last SOH if
      the tag has a name, the line number; what is in front of that is the pattern, or the name, a DEL and the
      pattern. */
  ghost predicate EtagsFields(line: string, e: Entry) {
    var whole := CutLast(line, '\n');
    && whole.Cut? && whole.back == ""
    && var comma := CutLast(whole.front, ',');
       && comma.Cut? && Number(comma.back) == e.cno
       && var mark := CutLast(comma.front, if e.rewritten then SOH else DEL);
          && mark.Cut? && Number(mark.back) == e.lno
          && (!e.rewritten ==> mark.front == e.pat)
          && (e.rewritten && DEL !in e.pat ==> CutLast(mark.front, DEL) == Cut(e.name, e.pat))
  }

  lemma EtagsLineBack(e: Entry)
    ensures EtagsFields(Line(EtagsStyle, e), e)
  {
    hide CutLast, Number, Decimal;
    var line := Line(EtagsStyle, e);
    var head := if e.rewritten then e.name + [DEL] + e.pat else e.pat;
    var mark := if e.rewritten then SOH else DEL;
    var lno, cno := Decimal(e.lno), Decimal(e.cno);
    DecimalBack(e.lno);
    DecimalBack(e.cno);
    NotInDecimal(e.cno, ',');
    NotInDecimal(e.lno, mark);
    var front := head + [mark] + lno;
    assert line == front + [','] + cno + ['\n'] + [];
    LastAt(front + [','] + cno, '\n', []);
    LastAt(front, ',', cno);
    LastAt(head, mark, lno);
    if e.rewritten && DEL !in e.pat {
      LastAt(e.name, DEL, e.pat);
    }
  }

  /** A line of ctags: name and file in front of a tab each; then the pattern of a function between delimiters and
      anchored at the beginning of a line, or the line number. */
  ghost predicate CtagsFields(line: string, e: Entry, delimiter: char) {
    var tab := CutFirst(line, '\t');
    && tab.Cut? && tab.front == e.name
    && var next := CutFirst(tab.back, '\t');
       && next.Cut? && next.front == e.fileName
       && var last := next.back;
          if e.isFunc then
            && |last| >= 2 && last[0] == delimiter && last[1] == '^'
            && ReadPattern(last[2..], delimiter) == (e.pat, "\n")
          else last != [] && last[|last| - 1] == '\n' && Number(last[..|last| - 1]) == e.lno
  }

  lemma CtagsLineBack(e: Entry, delimiter: char)
    requires delimiter != '\\' && '\t' !in e.name && '\t' !in e.fileName
    ensures CtagsFields(Line(CtagsStyle(delimiter), e), e, delimiter)
  {
    hide CutFirst, Number, Decimal, Escaped, ReadPattern;
    var line := Line(CtagsStyle(delimiter), e);
    var d := [delimiter];
    var last := if e.isFunc then d + "^" + (Escaped(e.pat, delimiter) + d + "\n") else Decimal(e.lno) + "\n";
    var more := e.fileName + ['\t'] + last;
    assert line == e.name + ['\t'] + more;
    FirstAt(e.name, '\t', more);
    FirstAt(e.fileName, '\t', last);
    if e.isFunc {
      PatternReadBack(e.pat, delimiter, "\n");
      assert last[2..] == Escaped(e.pat, delimiter) + d + "\n";
    } else {
      DecimalBack(e.lno);
      assert last[..|last| - 1] == Decimal(e.lno);
    }
  }

  // ---- the lines ----

  function Lines(style: Style, es: seq<Entry>): string {
    if es == [] then "" else Line(style, es[0]) + Lines(style, es[1..])
  }

  lemma {:induction false} LinesJoin(style: Style, es: seq<Entry>, fs: seq<Entry>)
    ensures Lines(style, es + fs) == Lines(style, es) + Lines(style, fs)
  {
    if es == [] {
      assert es + fs == fs;
    } else {
      assert (es + fs)[0] == es[0] && (es + fs)[1..] == es[1..] + fs;
      LinesJoin(style, es[1..], fs);
    }
  }

  lemma LinesAround(style: Style, l: seq<Entry>, x: Entry, r: seq<Entry>)
    ensures Lines(style, l + [x] + r) == Lines(style, l) + Line(style, x) + Lines(style, r)
  {
    hide Line;
    LinesJoin(style, l + [x], r);
    LinesJoin(style, l, [x]);
    LinesOne(style, x);
  }

  lemma NoLines(style: Style)
    ensures Lines(style, []) == ""
  {
  }

  lemma LinesOne(style: Style, x: Entry)
    ensures Lines(style, [x]) == Line(style, x)
  {
    hide Line;
    assert Line(style, x) + "" == Line(style, x);
  }

  /** The characters that total_size_of_entries counts for a tag. */
  function EntrySize(e: Entry): int {
    |e.pat| + 1 + (|Decimal(e.lno)| - if e.lno < 0 then 1 else 0)
    + 1 + (|Decimal(e.cno)| - if e.cno < 0 then 1 else 0) + 1
    + if e.rewritten then 1 + |e.name| else 0
  }

  function Sizes(es: seq<Entry>): int {
    if es == [] then 0 else EntrySize(es[0]) + Sizes(es[1..])
  }

  lemma {:induction false} SizesJoin(es: seq<Entry>, fs: seq<Entry>)
    ensures Sizes(es + fs) == Sizes(es) + Sizes(fs)
  {
    if es == [] {
      assert es + fs == fs;
    } else {
      assert (es + fs)[0] == es[0] && (es + fs)[1..] == es[1..] + fs;
      SizesJoin(es[1..], fs);
    }
  }

  lemma NoSizes()
    ensures Sizes([]) == 0
  {
  }

  lemma SizesAround(l: seq<Entry>, x: Entry, r: seq<Entry>)
    ensures Sizes(l + [x] + r) == Sizes(l) + EntrySize(x) + Sizes(r)
  {
    SizesJoin(l + [x], r);
    SizesJoin(l, [x]);
    assert Sizes([x]) == EntrySize(x) + Sizes([]);
  }

  /** How many minus signs are written. */
  function Signs(es: seq<Entry>): nat {
    if es == [] then 0
    else (if es[0].lno < 0 then 1 else 0) + (if es[0].cno < 0 then 1 else 0) + Signs(es[1..])
  }

  lemma {:induction false} NoSigns(es: seq<Entry>)
    ensures Signs(es) == 0 <==> forall i :: 0 <= i < |es| ==> es[i].lno >= 0 && es[i].cno >= 0
  {
    if es != [] {
      NoSigns(es[1..]);
      assert es == [es[0]] + es[1..];
    }
  }

  /** The count is that of the characters written, but for minus signs; so it is right just if no number is
      negative. */
  lemma {:induction false} SizeCounts(es: seq<Entry>)
    ensures |Lines(EtagsStyle, es)| == Sizes(es) + Signs(es)
    ensures |Lines(EtagsStyle, es)| == Sizes(es) <==> forall i :: 0 <= i < |es| ==> es[i].lno >= 0 && es[i].cno >= 0
  {
    if es != [] {
      SizeCounts(es[1..]);
    }
    NoSigns(es);
  }

  // ---- the tags of one file, or of all ----

  class Tags {
    const style: Style
    var head: Node?
    var lastNode: Node?              // the node last added
    var out: string                  // what has been written
    ghost var tree: Tree

    ghost predicate Valid()
      reads this, Nodes(tree)
    {
      && Is(head, tree)
      && if style == EtagsStyle then Linear(tree) && (tree != Leaf ==> lastNode == Last(tree))
         else Increasing(Entries(tree))
    }

    constructor (style: Style)
      ensures Valid() && this.style == style && tree == Leaf && out == ""
    {
      this.style, head, lastNode, out, tree := style, null, null, "", Leaf;
    }

    /** add_node.  That there is a last node in etags mode, it checks itself. */
    method AddNode(node: Node)
      requires Valid() && node !in Nodes(tree) && Is(node, Alone(node))
      modifies this`head, this`lastNode, this`tree, Nodes(tree)
      ensures Valid() && Nodes(tree) <= old(Nodes(tree)) + {node}
      ensures Entries(tree) == if style == EtagsStyle then old(Entries(tree)) + [node.entry]
                               else Added(old(Entries(tree)), node.entry)
    {
      hide Is, Compare, Added, Increasing, Entries, Nodes, Linear;
      AloneValid(node);
      if head == null {
        Bare(tree);
        head, lastNode, tree := node, node, Alone(node);
        AddedNothing(node.entry);
        return;
      }
      Parts(head, tree);
      if style == EtagsStyle {
        LastOpen(head, tree);
        assert lastNode != null;
        lastNode.right := node;
        Appended(head, tree, lastNode, node);
        tree := Append(tree, node);
        lastNode := node;
      } else {
        AddedStays(Entries(tree), node.entry);
        var added;
        added, tree := head.Insert(node, tree);
        if added {
          lastNode := node;
        }
      }
    }

    /** The rest of pfnote: a new node, added. */
    method Note(e: Entry)
      requires Valid()
      modifies this`head, this`lastNode, this`tree, Nodes(tree)
      ensures Valid() && fresh(Nodes(tree) - old(Nodes(tree)))
      ensures Entries(tree) == if style == EtagsStyle then old(Entries(tree)) + [e] else Added(old(Entries(tree)), e)
    {
      hide Is, Nodes, Entries, Added;
      assert allocated(Nodes(tree));
      var node := new Node(e);
      AloneIs(node);
      AddNode(node);
    }

    /** The tags of a file, as they are found. */
    method NoteAll(es: seq<Entry>)
      requires Valid() && tree == Leaf
      modifies this`head, this`lastNode, this`tree
      ensures Valid() && Entries(tree) == if style == EtagsStyle then es else AddedAll(es)
    {
      hide Is, Linear, Last, Increasing, Added, Entries;
      LeafIs();
      var i := 0;
      while i < |es|
        invariant 0 <= i <= |es| && Valid() && fresh(Nodes(tree))
        invariant Entries(tree) == if style == EtagsStyle then es[..i] else AddedAll(es[..i])
      {
        assert es[..i + 1] == es[..i] + [es[i]] && es[..i + 1][..i] == es[..i];
        ghost var before := Nodes(tree);
        label Noting:
        Note(es[i]);
        forall x | x in Nodes(tree) ensures fresh(x) {
          assert x in before || fresh@Noting(x);
        }
        i := i + 1;
      }
      assert es[..|es|] == es;
    }

    /** The pattern of a function, between delimiters. */
    method PutPattern(pat: string, delimiter: char)
      modifies this`out
      ensures out == old(out) + [delimiter] + "^" + Escaped(pat, delimiter) + [delimiter]
    {
      out := out + [delimiter];
      out := out + "^";
      var i := 0;
      while i < |pat|
        invariant 0 <= i <= |pat|
        invariant out + Escaped(pat[i..], delimiter) == old(out) + [delimiter] + "^" + Escaped(pat, delimiter)
      {
        assert pat[i..][0] == pat[i] && pat[i..][1..] == pat[i + 1..];
        if pat[i] == '\\' || pat[i] == delimiter {
          out := out + ['\\'];
        }
        out := out + [pat[i]];
        i := i + 1;
      }
      out := out + [delimiter];
    }

    method PutEntry(e: Entry)
      modifies this`out
      ensures out == old(out) + Line(style, e)
    {
      match style {
        case EtagsStyle =>
          if e.rewritten {
            out := out + (e.name + [DEL] + e.pat + [SOH] + Decimal(e.lno) + "," + Decimal(e.cno) + "\n");
          } else {
            out := out + (e.pat + [DEL] + Decimal(e.lno) + "," + Decimal(e.cno) + "\n");
          }
        case CtagsStyle(delimiter) =>
          out := out + (e.name + "\t" + e.fileName + "\t");
          if e.isFunc {
            PutPattern(e.pat, delimiter);
          } else {
            out := out + Decimal(e.lno);
          }
          out := out + "\n";
      }
    }

    /** put_entries. */
    method PutEntries(n: Node?, ghost t: Tree)
      requires Is(n, t)
      modifies this`out
      ensures out == old(out) + Lines(style, Entries(t))
      decreases t
    {
      hide Line, Lines, Is, Entries, Nodes;
      if n == null {
        Bare(t);
        NoLines(style);
        return;
      }
      Parts(n, t);
      Whole(t.left, n, t.right);
      assert allocated(Nodes(t.left)) && allocated(Nodes(t.right));
      LinesAround(style, Entries(t.left), n.entry, Entries(t.right));
      PutEntries(n.left, t.left);
      PutEntry(n.entry);
      PutEntries(n.right, t.right);
    }

    /** total_size_of_entries. */
    method TotalSize(n0: Node?, ghost t0: Tree) returns (total: int)
      requires Is(n0, t0)
      ensures total == Sizes(Entries(t0))
      decreases t0
    {
      hide Is, Entries, Nodes, Sizes, Decimal;
      var n := n0;
      ghost var t := t0;
      total := 0;
      while n != null
        invariant Is(n, t) && total + Sizes(Entries(t)) == Sizes(Entries(t0))
        invariant t == t0 || t < t0
        decreases t
      {
        Parts(n, t);
        Whole(t.left, n, t.right);
        SizesAround(Entries(t.left), n.entry, Entries(t.right));
        assert allocated(Nodes(t.left)) && allocated(Nodes(t.right));
        var left := TotalSize(n.left, t.left);
        total := total + left;
        total := total + |n.entry.pat| + 1;
        var lno := NumberLen(n.entry.lno);
        var cno := NumberLen(n.entry.cno);
        total := total + lno + 1 + cno + 1;
        if n.entry.rewritten {
          total := total + 1 + |n.entry.name|;
        }
        n, t := n.right, t.right;
      }
      Bare(t);
      NoSizes();
    }

    /** The end of process_file in etags mode: the section of a file says how many characters its tags take,
        if no number in them is negative. */
    method PutSection(file: string)
      requires Valid() && style == EtagsStyle
      modifies this`out, this`head, this`tree
      ensures Valid() && tree == Leaf
      ensures var es := old(Entries(tree));
              var body := Lines(style, es);
              && out == old(out) + [FORM_FEED] + "\n" + file + "," + Decimal(|body| - Signs(es)) + "\n" + body
              && (Signs(es) == 0 <==> forall i :: 0 <= i < |es| ==> es[i].lno >= 0 && es[i].cno >= 0)
    {
      hide Is, Nodes, Entries, Lines, Sizes, Signs, Decimal, Last;
      assert allocated(Nodes(tree));
      var total := TotalSize(head, tree);
      SizeCounts(Entries(tree));
      NoSigns(Entries(tree));
      out := out + [FORM_FEED] + "\n" + file + "," + Decimal(total) + "\n";
      PutEntries(head, tree);
      head, tree := null, Leaf;
      LeafIs();
    }
  }

  lemma LeafIs()
    ensures Is(null, Leaf) && Nodes(Leaf) == {} && Entries(Leaf) == []
  {
  }

  lemma AloneIs(node: Node)
    requires node.left == null && node.right == null
    ensures Is(node, Alone(node))
  {
  }

  lemma AloneValid(node: Node)
    requires Is(node, Alone(node))
    ensures Linear(Alone(node)) && Last(Alone(node)) == node && Increasing(Entries(Alone(node)))
  {
  }

  lemma AddedStays(es: seq<Entry>, e: Entry)
    requires Increasing(es)
    ensures Increasing(Added(es, e))
  {
    AddedKeeps(es, e);
  }

  /** etags on one file. */
  method EtagsFile(file: string, es: seq<Entry>) returns (out: string)
    ensures var body := Lines(EtagsStyle, es);
            out == [FORM_FEED] + "\n" + file + "," + Decimal(|body| - Signs(es)) + "\n" + body
    ensures forall e :: e in es ==> EtagsFields(Line(EtagsStyle, e), e)
  {
    hide Lines, Line, Signs, Decimal, Is, Entries, EtagsFields;
    forall e | e in es ensures EtagsFields(Line(EtagsStyle, e), e) { EtagsLineBack(e); }
    var tags := new Tags(EtagsStyle);
    tags.NoteAll(es);
    tags.PutSection(file);
    out := tags.out;
  }

  lemma Ordered(kept: seq<Entry>, delimiter: char)
    ensures Increasing(kept) ==> forall i, j :: 0 <= i < j < |kept| ==> Before(kept[i].name, kept[j].name)
    ensures forall e :: e in kept && delimiter != '\\' && '\t' !in e.name && '\t' !in e.fileName ==>
              CtagsFields(Line(CtagsStyle(delimiter), e), e, delimiter)
  {
    hide Line, CtagsFields, Before, Compare;
    forall i, j | 0 <= i < j < |kept| && Increasing(kept) ensures Before(kept[i].name, kept[j].name) {
      CompareIs(kept[i].name, kept[j].name);
    }
    forall e | e in kept && delimiter != '\\' && '\t' !in e.name && '\t' !in e.fileName
      ensures CtagsFields(Line(CtagsStyle(delimiter), e), e, delimiter)
    {
      CtagsLineBack(e, delimiter);
    }
  }

  /** ctags: a line for each tag kept, which are the first of each name, in order of names. */
  method Ctags(delimiter: char, es: seq<Entry>) returns (out: string)
    ensures out == Lines(CtagsStyle(delimiter), AddedAll(es)) && Increasing(AddedAll(es))
    ensures forall x :: x in AddedAll(es) <==> exists i :: 0 <= i < |es| && es[i] == x && First(es, i)
    ensures var kept := AddedAll(es);
            && (forall i, j :: 0 <= i < j < |kept| ==> Before(kept[i].name, kept[j].name))
            && forall e :: e in kept && delimiter != '\\' && '\t' !in e.name && '\t' !in e.fileName ==>
                 CtagsFields(Line(CtagsStyle(delimiter), e), e, delimiter)
  {
    hide Line, Lines, CtagsFields, Before, Compare, Is, Entries, First;
    Ordered(AddedAll(es), delimiter);
    var tags := new Tags(CtagsStyle(delimiter));
    tags.NoteAll(es);
    FirstOfEachName(es);
    tags.PutEntries(tags.head, tags.tree);
    out := tags.out;
  }
}
