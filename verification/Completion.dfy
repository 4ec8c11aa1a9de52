/** File name completion: one pass over a directory, keeping the best match so far. */
module Completion {

  /** A directory entry, with what stat says of it. */
  datatype Kind = Missing | File | Directory
  datatype Entry = Entry(name: string, used: bool, kind: Kind)

  /** nil, t, or a string. */
  datatype Answer = Nil | T | Text(s: string)

  // ---- which entries are completions, and of what ----

  ghost predicate Matches(file: string, e: Entry) {
    e.used && file <= e.name && e.kind != Missing
  }

  predicate EndsWith(name: string, ext: string) {
    |ext| <= |name| && name[|name| - |ext|..] == ext
  }

  /** Files whose names end in an ignored extension, unless the name is just what was typed. */
  ghost predicate Ignored(file: string, e: Entry, ignored: seq<string>) {
    e.kind == File && |e.name| > |file| && exists i :: 0 <= i < |ignored| && EndsWith(e.name, ignored[i])
  }

  /** The name a completion counts as: a directory's ends in a slash. */
  function Named(e: Entry): string {
    if e.kind == Directory then e.name + "/" else e.name
  }

  /** The names accepted by a pass that ignores `ignored`. */
  ghost function Accepted(file: string, entries: seq<Entry>, ignored: seq<string>): seq<string> {
    if entries == [] then []
    else
      var n := |entries| - 1;
      var e := entries[n];
      Accepted(file, entries[..n], ignored) + if Matches(file, e) && !Ignored(file, e, ignored) then [Named(e)] else []
  }

  /** The names that count: ignored extensions matter only if something is left without them. */
  ghost function Candidates(file: string, entries: seq<Entry>, ignored: seq<string>): seq<string> {
    var names := Accepted(file, entries, ignored);
    if names != [] then names else Accepted(file, entries, [])
  }

  // ---- the longest common prefix ----

  ghost function Common(a: string, b: string): (c: string)
    ensures c <= a && c <= b
    ensures |c| == |a| || |c| == |b| || a[|c|] != b[|c|]
  {
    if a == [] || b == [] || a[0] != b[0] then [] else [a[0]] + Common(a[1..], b[1..])
  }

  ghost function CommonAll(names: seq<string>): string
    requires names != []
  {
    var n := |names| - 1;
    if n == 0 then names[0] else Common(CommonAll(names[..n]), names[n])
  }

  lemma CommonAllMore(names: seq<string>, name: string)
    ensures CommonAll(names + [name]) == if names == [] then name else Common(CommonAll(names), name)
  {
    assert (names + [name])[..|names|] == names;
  }

  ghost predicate PrefixOfAll(p: string, names: seq<string>) {
    forall i :: 0 <= i < |names| ==> p <= names[i]
  }

  lemma CommonGreatest(a: string, b: string, p: string)
    requires p <= a && p <= b
    ensures p <= Common(a, b)
  {
    var c := Common(a, b);
    assert !(|c| < |p|);
  }

  lemma CommonIs(a: string, b: string, c: string)
    requires c <= a && c <= b && (|c| == |a| || |c| == |b| || a[|c|] != b[|c|])
    ensures c == Common(a, b)
  {
    CommonGreatest(a, b, c);
    var d := Common(a, b);
    assert !(|c| < |d|);
  }

  lemma {:induction false} CommonAllGreatest(names: seq<string>)
    requires names != []
    ensures PrefixOfAll(CommonAll(names), names)
    ensures forall p :: PrefixOfAll(p, names) ==> p <= CommonAll(names)
    decreases |names|
  {
    var n := |names| - 1;
    if n > 0 {
      var rest := names[..n];
      CommonAllGreatest(rest);
      var c := CommonAll(names);
      forall i | 0 <= i < |names|
        ensures c <= names[i]
      {
        if i < n { assert CommonAll(rest) <= rest[i]; }
      }
      forall p | PrefixOfAll(p, names)
        ensures p <= c
      {
        assert PrefixOfAll(p, rest);
        CommonGreatest(CommonAll(rest), names[n], p);
      }
    }
  }

  /** What completion answers, from the names that count. */
  ghost function Answered(file: string, names: seq<string>): Answer {
    if names == [] then Nil
    else if names == [file] then T
    else Text(CommonAll(names))
  }

  /** The answer is the longest common prefix of the names, and depends on nothing else: not on their
      order, nor on which of them comes first. */
  lemma OrderIrrelevant(file: string, a: seq<string>, b: seq<string>)
    requires multiset(a) == multiset(b)
    ensures Answered(file, a) == Answered(file, b)
  {
    assert |a| == |multiset(a)| == |multiset(b)| == |b|;
    if a != [] {
      CommonAllGreatest(a);
      CommonAllGreatest(b);
      SamePrefixes(a, b, CommonAll(a));
      SamePrefixes(b, a, CommonAll(b));
      assert CommonAll(a) <= CommonAll(b) <= CommonAll(a);
      if |a| == 1 {
        assert a == [a[0]] && b == [b[0]];
        assert a[0] in multiset(b);
      }
    }
  }

  lemma SamePrefixes(a: seq<string>, b: seq<string>, p: string)
    requires multiset(a) == multiset(b) && PrefixOfAll(p, a)
    ensures PrefixOfAll(p, b)
  {
    forall i | 0 <= i < |b|
      ensures p <= b[i]
    {
      assert b[i] in multiset(a);
      var j :| 0 <= j < |a| && a[j] == b[i];
    }
  }

  lemma {:induction false} AcceptedPrefix(file: string, entries: seq<Entry>, ignored: seq<string>)
    ensures PrefixOfAll(file, Accepted(file, entries, ignored))
    decreases |entries|
  {
    if entries != [] {
      AcceptedPrefix(file, entries[..|entries| - 1], ignored);
    }
  }

  lemma {:induction false} AcceptedSplit(file: string, a: seq<Entry>, b: seq<Entry>, ignored: seq<string>)
    ensures Accepted(file, a + b, ignored) == Accepted(file, a, ignored) + Accepted(file, b, ignored)
    decreases |b|
  {
    if b == [] {
      assert a + b == a;
    } else {
      var n := |b| - 1;
      assert (a + b)[..|a| + n] == a + b[..n];
      AcceptedSplit(file, a, b[..n], ignored);
    }
  }

  lemma RemoveOne(a: seq<Entry>, b: seq<Entry>) returns (p: seq<Entry>, q: seq<Entry>)
    requires multiset(a) == multiset(b) && a != []
    ensures b == p + [a[|a| - 1]] + q && multiset(a[..|a| - 1]) == multiset(p + q)
  {
    var n := |a| - 1;
    var e := a[n];
    hide *;
    assert e in multiset(b);
    var i :| 0 <= i < |b| && b[i] == e;
    p, q := b[..i], b[i + 1..];
    Around(a[..n], e, []);
    Around(p, e, q);
    assert a == a[..n] + [e] + [] && a[..n] + [] == a[..n] && b == p + [e] + q;
    Cancel(multiset(a[..n]), multiset(p + q), multiset([e]));
  }

  lemma Around(p: seq<Entry>, e: Entry, q: seq<Entry>)
    ensures multiset(p + [e] + q) == multiset(p + q) + multiset([e])
  {
  }

  lemma Cancel(x: multiset<Entry>, y: multiset<Entry>, z: multiset<Entry>)
    requires x + z == y + z
    ensures x == y
  {
    assert x == (x + z) - z && y == (y + z) - z;
  }

  lemma {:induction false} AcceptedOrder(file: string, a: seq<Entry>, b: seq<Entry>, ignored: seq<string>)
    requires multiset(a) == multiset(b)
    ensures multiset(Accepted(file, a, ignored)) == multiset(Accepted(file, b, ignored))
    decreases |a|
  {
    hide Accepted;
    if a == [] {
      assert |multiset(b)| == |b| == 0;
      assert b == [];
    } else {
      var n := |a| - 1;
      var e, a0 := a[n], a[..n];
      var p, q := RemoveOne(a, b);
      var b0 := p + q;
      AcceptedOrder(file, a0, b0, ignored);
      AcceptedThree(file, a0, e, [], a, a0, ignored);
      AcceptedThree(file, p, e, q, b, b0, ignored);
    }
  }

  lemma AcceptedThree(file: string, p: seq<Entry>, e: Entry, q: seq<Entry>, a: seq<Entry>, a0: seq<Entry>,
                      ignored: seq<string>)
    requires a == p + [e] + q && a0 == p + q
    ensures multiset(Accepted(file, a, ignored)) ==
            multiset(Accepted(file, a0, ignored)) + multiset(Accepted(file, [e], ignored))
  {
    hide Accepted;
    AcceptedSplit(file, p + [e], q, ignored);
    AcceptedSplit(file, p, [e], ignored);
    AcceptedSplit(file, p, q, ignored);
  }

  /** The order of the directory does not matter. */
  lemma DirectoryOrder(file: string, a: seq<Entry>, b: seq<Entry>, ignored: seq<string>)
    requires multiset(a) == multiset(b)
    ensures Answered(file, Candidates(file, a, ignored)) == Answered(file, Candidates(file, b, ignored))
  {
    AcceptedOrder(file, a, b, ignored);
    AcceptedOrder(file, a, b, []);
    var x, y := Accepted(file, a, ignored), Accepted(file, b, ignored);
    assert x == [] <==> y == [] by {
      assert |multiset(x)| == |x| && |multiset(y)| == |y|;
    }
    OrderIrrelevant(file, Candidates(file, a, ignored), Candidates(file, b, ignored));
  }

  // ---- which names count, and what that makes of the answer ----

  /** An entry whose name is `file` and something more. */
  ghost predicate Fits(file: string, e: Entry) {
    e.used && e.kind != Missing && exists more :: e.name == file + more
  }

  /** A file that is more than what was typed and whose name is something and an ignored extension. */
  ghost predicate Unwanted(file: string, e: Entry, ignored: seq<string>) {
    e.kind == File && e.name != file && exists i, front :: 0 <= i < |ignored| && e.name == front + ignored[i]
  }

  /** The entry at `i` counts: it fits, and it is wanted or nothing that fits is. */
  ghost predicate Counts(file: string, entries: seq<Entry>, ignored: seq<string>, i: nat)
    requires i < |entries|
  {
    && Fits(file, entries[i])
    && (Unwanted(file, entries[i], ignored) ==>
          forall j :: 0 <= j < |entries| && Fits(file, entries[j]) ==> Unwanted(file, entries[j], ignored))
  }

  /** It is the only one that counts. */
  ghost predicate OnlyOne(file: string, entries: seq<Entry>, ignored: seq<string>, i: nat)
    requires i < |entries|
  {
    && Counts(file, entries, ignored, i)
    && forall j: nat :: j < |entries| && Counts(file, entries, ignored, j) ==> j == i
  }

  ghost predicate IsName(e: Entry, name: string) {
    if e.kind == Directory then name == e.name + "/" else name == e.name
  }

  /** The answer, entry by entry: nil if nothing fits; t if what was typed is the name of the one that counts; or
      what all that count have in common, and no less. */
  ghost predicate Right(file: string, entries: seq<Entry>, ignored: seq<string>, r: Answer) {
    && (r == Nil <==> forall i :: 0 <= i < |entries| ==> !Fits(file, entries[i]))
    && (r == T <==>
          exists i: nat :: i < |entries| && OnlyOne(file, entries, ignored, i) && IsName(entries[i], file))
    && (r.Text? ==>
          && Below(file, entries, ignored, r.s)
          && forall p :: Below(file, entries, ignored, p) ==> p <= r.s)
  }

  /** `p` begins every name that counts. */
  ghost predicate Below(file: string, entries: seq<Entry>, ignored: seq<string>, p: string) {
    forall i: nat, name :: i < |entries| && Counts(file, entries, ignored, i) && IsName(entries[i], name) ==> p <= name
  }

  lemma FitsIs(file: string, e: Entry, ignored: seq<string>)
    ensures Fits(file, e) <==> Matches(file, e)
    ensures Fits(file, e) ==> (Unwanted(file, e, ignored) <==> Ignored(file, e, ignored))
  {
    if file <= e.name {
      assert e.name == file + e.name[|file|..];
    }
    forall i | 0 <= i < |ignored| && EndsWith(e.name, ignored[i])
      ensures exists front :: e.name == front + ignored[i]
    {
      assert e.name == e.name[..|e.name| - |ignored[i]|] + ignored[i];
    }
  }

  lemma NothingIgnored(file: string, e: Entry)
    ensures !Ignored(file, e, [])
  {
  }

  /** The names are those of the entries at `at`, in order. */
  ghost predicate NamesAt(entries: seq<Entry>, at: seq<nat>, names: seq<string>) {
    && |at| == |names|
    && (forall k :: 0 <= k < |at| ==> at[k] < |entries| && IsName(entries[at[k]], names[k]))
    && (forall j, k :: 0 <= j < k < |at| ==> at[j] < at[k])
  }

  lemma NamesAtMore(entries: seq<Entry>, at: seq<nat>, names: seq<string>, e: Entry)
    requires NamesAt(entries, at, names)
    ensures NamesAt(entries + [e], at, names)
    ensures NamesAt(entries + [e], at + [|entries|], names + [Named(e)])
  {
  }

  ghost predicate Taken(file: string, entries: seq<Entry>, ignored: seq<string>, i: nat) {
    i < |entries| && Fits(file, entries[i]) && !Ignored(file, entries[i], ignored)
  }

  lemma AcceptedLast(file: string, entries: seq<Entry>, e: Entry, ignored: seq<string>)
    ensures Accepted(file, entries + [e], ignored) ==
            Accepted(file, entries, ignored) + if Matches(file, e) && !Ignored(file, e, ignored) then [Named(e)] else []
  {
    assert (entries + [e])[..|entries|] == entries;
  }

  lemma AcceptedNone(file: string, ignored: seq<string>)
    ensures Accepted(file, [], ignored) == []
  {
  }

  /** Where the accepted names come from: entries in order, each that is accepted once. */
  lemma {:induction false} AcceptedFrom(file: string, entries: seq<Entry>, ignored: seq<string>) returns (at: seq<nat>)
    ensures NamesAt(entries, at, Accepted(file, entries, ignored))
    ensures forall i: nat :: i in at <==> Taken(file, entries, ignored, i)
    decreases |entries|
  {
    hide Accepted, NamesAt, Fits, Ignored, Matches, Named;
    if entries == [] {
      at := NothingAt(file, ignored);
    } else {
      var n := |entries| - 1;
      var front, e := entries[..n], entries[n];
      at := AcceptedFrom(file, front, ignored);
      assert entries == front + [e];
      FitsIs(file, e, ignored);
      AcceptedLast(file, front, e, ignored);
      NamesAtMore(front, at, Accepted(file, front, ignored), e);
      if Matches(file, e) && !Ignored(file, e, ignored) {
        at := at + [n];
      } else {
        var names := Accepted(file, front, ignored);
        assert names + [] == names;
      }
    }
  }

  lemma NothingAt(file: string, ignored: seq<string>) returns (at: seq<nat>)
    ensures at == [] && NamesAt([], at, Accepted(file, [], ignored))
  {
    at := [];
  }

  /** The same for the names that count. */
  lemma CandidatesFrom(file: string, entries: seq<Entry>, ignored: seq<string>) returns (at: seq<nat>)
    ensures var names := Candidates(file, entries, ignored);
            && NamesAt(entries, at, names)
            && forall i: nat :: i in at <==> i < |entries| && Counts(file, entries, ignored, i)
    ensures at == [] <==> forall i :: 0 <= i < |entries| ==> !Fits(file, entries[i])
  {
    hide Accepted, Fits, Unwanted, Ignored, IsName, Matches;
    at := AcceptedFrom(file, entries, ignored);
    forall i: nat | i < |entries| && Fits(file, entries[i])
      ensures Taken(file, entries, ignored, i) <==> !Unwanted(file, entries[i], ignored)
      ensures Taken(file, entries, [], i)
    {
      FitsIs(file, entries[i], ignored);
      NothingIgnored(file, entries[i]);
    }
    if at == [] {
      forall i: nat | i < |entries| && Fits(file, entries[i]) ensures Unwanted(file, entries[i], ignored) {
        assert i !in at;
      }
      at := AcceptedFrom(file, entries, []);
    } else {
      assert at[0] in at;
      assert Taken(file, entries, ignored, at[0]);
    }
    if at != [] {
      assert at[0] in at;
    }
  }

  lemma BelowIs(file: string, entries: seq<Entry>, ignored: seq<string>, names: seq<string>, at: seq<nat>, p: string)
    requires NamesAt(entries, at, names)
    requires forall i: nat :: i in at <==> i < |entries| && Counts(file, entries, ignored, i)
    ensures Below(file, entries, ignored, p) <==> PrefixOfAll(p, names)
  {
    hide Counts;
    if Below(file, entries, ignored, p) {
      forall k | 0 <= k < |names| ensures p <= names[k] {
        assert at[k] in at;
      }
    }
    if PrefixOfAll(p, names) {
      forall i: nat, name | i < |entries| && Counts(file, entries, ignored, i) && IsName(entries[i], name)
        ensures p <= name
      {
        assert i in at;
        var k :| 0 <= k < |at| && at[k] == i;
      }
    }
  }

  lemma AnsweredRight(file: string, entries: seq<Entry>, ignored: seq<string>, r: Answer)
    requires r == Answered(file, Candidates(file, entries, ignored))
    ensures Right(file, entries, ignored, r)
  {
    hide Counts, Candidates, Fits, Below, CommonAll;
    var names := Candidates(file, entries, ignored);
    var at := CandidatesFrom(file, entries, ignored);
    if names != [] {
      CommonAllGreatest(names);
      forall p ensures Below(file, entries, ignored, p) <==> PrefixOfAll(p, names) {
        BelowIs(file, entries, ignored, names, at, p);
      }
    }
    OnlyName(file, entries, ignored, names, at);
  }

  /** There is just one name, and it is `file`. */
  lemma OnlyName(file: string, entries: seq<Entry>, ignored: seq<string>, names: seq<string>, at: seq<nat>)
    requires NamesAt(entries, at, names)
    requires forall i: nat :: i in at <==> i < |entries| && Counts(file, entries, ignored, i)
    ensures names == [file] <==>
            exists i: nat :: i < |entries| && OnlyOne(file, entries, ignored, i) && IsName(entries[i], file)
  {
    hide Counts;
    if names == [file] {
      assert at[0] in at;
    }
    forall i: nat | i < |entries| && OnlyOne(file, entries, ignored, i) && IsName(entries[i], file)
      ensures names == [file]
    {
      assert i in at;
      assert forall k :: 0 <= k < |at| ==> at[k] in at;
      Single(at, i);
    }
  }

  lemma Single(at: seq<nat>, i: nat)
    requires i in at && (forall j :: j in at ==> j == i) && forall j, k :: 0 <= j < k < |at| ==> at[j] < at[k]
    ensures at == [i]
  {
    if |at| > 1 {
      InOrder(at, 0, 1);
      assert false;
    }
  }

  lemma InOrder(at: seq<nat>, j: nat, k: nat)
    requires j < k < |at| && forall j, k :: 0 <= j < k < |at| ==> at[j] < at[k]
    ensures at[j] < at[k] && at[j] in at && at[k] in at
  {
  }

  // ---- the program ----

  /** scmp, with case taken into account: -1 if the first `n` characters agree, else where they differ. */
  method Scmp(a: string, b: string, n: nat) returns (k: int)
    requires n <= |a| && n <= |b|
    ensures if k < 0 then k == -1 && a[..n] == b[..n] else k < n && a[..k] == b[..k] && a[k] != b[k]
  {
    var i := 0;
    while i < n
      invariant 0 <= i <= n && a[..i] == b[..i]
    {
      if a[i] != b[i] {
        return i;
      }
      i := i + 1;
    }
    k := -1;
  }

  /** Does the name end in one of the extensions to be ignored? */
  method IgnoredExtension(name: string, ignored: seq<string>) returns (found: bool)
    ensures found <==> exists i :: 0 <= i < |ignored| && EndsWith(name, ignored[i])
  {
    for i := 0 to |ignored|
      invariant forall j :: 0 <= j < i ==> !EndsWith(name, ignored[j])
    {
      if |name| >= |ignored[i]| {
        var skip := |name| - |ignored[i]|;
        var k := Scmp(name[skip..], ignored[i], |ignored[i]|);
        if k < 0 {
          assert name[skip..][..|ignored[i]|] == name[skip..] && ignored[i][..|ignored[i]|] == ignored[i];
          return true;
        }
        assert name[skip..][k] != ignored[i][k];
      }
    }
    found := false;
  }

  /** Is this entry a completion in this pass? */
  method Accepts(file: string, e: Entry, pass: nat, ignored: seq<string>) returns (ok: bool)
    ensures ok <==> Matches(file, e) && !Ignored(file, e, if pass == 0 then ignored else [])
  {
    if !e.used || |e.name| < |file| {
      return false;
    }
    var k := Scmp(e.name, file, |file|);
    assert file[..|file|] == file;
    if k >= 0 {
      assert e.name[k] != file[k];
      return false;
    }
    if e.kind == Missing {
      return false;
    }
    if e.kind == File && pass == 0 && |e.name| > |file| {
      var found := IgnoredExtension(e.name, ignored);
      return !found;
    }
    ok := true;
  }

  /** How much of the best match is left when `e` is a completion as well. */
  method Narrow(best: string, size: nat, e: Entry) returns (matchsize: nat)
    requires size <= |best|
    ensures matchsize <= size && best[..matchsize] == Common(best[..size], Named(e))
  {
    var compare := if size < |e.name| then size else |e.name|;
    var k := Scmp(best, e.name, compare);
    matchsize := if k < 0 then compare else k;
    if e.kind == Directory && compare == matchsize && size > matchsize && best[matchsize] == '/' {
      matchsize := matchsize + 1;
    }
    CommonIs(best[..size], Named(e), best[..matchsize]);
  }

  /** file-name-completion, with case significant. */
  method FileNameCompletion(file: string, entries: seq<Entry>, ignored: seq<string>) returns (r: Answer)
    ensures r == Answered(file, Candidates(file, entries, ignored)) && Right(file, entries, ignored, r)
  {
    hide Right, Matches, Ignored, EndsWith, Named, Accepted, CommonAll, Common;
    var best, bestmatchsize: nat, matchcount := "", 0, 0;
    ghost var names: seq<string> := [];
    var pass := 0;
    while matchcount == 0 && pass < 2
      invariant 0 <= pass <= 2 && matchcount == |names| && bestmatchsize <= |best|
      invariant pass == 0 ==> names == []
      invariant pass == 1 ==> names == Accepted(file, entries, ignored)
      invariant pass == 2 ==> names == Candidates(file, entries, ignored)
      invariant names != [] ==> best[..bestmatchsize] == CommonAll(names)
      invariant |names| == 1 ==> best[..bestmatchsize] == best
    {
      ghost var from := if pass == 0 then ignored else [];
      AcceptedNone(file, from);
      assert entries[..0] == [];
      for i := 0 to |entries|
        invariant names == Accepted(file, entries[..i], from) && matchcount == |names| && bestmatchsize <= |best|
        invariant names != [] ==> best[..bestmatchsize] == CommonAll(names)
        invariant |names| == 1 ==> best[..bestmatchsize] == best
      {
        var e := entries[i];
        assert entries[..i + 1] == entries[..i] + [e];
        AcceptedLast(file, entries[..i], e, from);
        var ok := Accepts(file, e, pass, ignored);
        if ok {
          matchcount := matchcount + 1;
          if matchcount == 1 {
            best := Named(e);
            bestmatchsize := |best|;
          } else {
            bestmatchsize := Narrow(best, bestmatchsize, e);
          }
          CommonAllMore(names, Named(e));
          names := names + [Named(e)];
        }
      }
      assert entries[..|entries|] == entries;
      pass := pass + 1;
    }
    if |names| == 1 {
      assert names == [] + [names[0]];
      CommonAllMore([], names[0]);
    }
    if matchcount == 0 {
      r := Nil;
    } else if matchcount == 1 && bestmatchsize == |file| && best[..bestmatchsize] == file {
      r := T;
    } else {
      r := Text(best[..bestmatchsize]);
    }
    AnsweredRight(file, entries, ignored, r);
  }
}
