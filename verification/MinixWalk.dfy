/** Walking the directory tree of an image (minixfs.py, `find_references`), cycles and all. */
module MinixWalk {
  import opened Words
  import opened MinixMap

  const ROOT: Ino := 1

  predicate InRange(d: Disk, i: Ino) {
    1 <= i <= |d.inodes|
  }

  function NodeOf(d: Disk, i: Ino): Inode
    requires InRange(d, i)
  {
    d.inodes[i - 1]
  }

  predicate IsDot(n: Name) {
    n == [0x2E] || n == [0x2E, 0x2E]
  }

  function ListOf(d: Disk, i: Ino): Option<seq<Entry>>
    requires d.Valid() && InRange(d, i)
  {
    DirList(d, NodeOf(d, i))
  }

  predicate IsDirectory(d: Disk, i: Ino) {
    InRange(d, i) && NodeOf(d, i).kind == DirType
  }

  /** The directory p has an ordinary entry for i. */
  ghost predicate Lists(d: Disk, p: Ino, i: Ino)
    requires d.Valid()
  {
    InRange(d, p) && ListOf(d, p).Some? && exists e :: e in ListOf(d, p).value && e.0 == i && !IsDot(e.1)
  }

  ghost predicate Child(d: Disk, p: Ino, c: Ino)
    requires d.Valid()
  {
    Lists(d, p, c) && IsDirectory(d, c)
  }

  // ---- Reachability ------------------------------------------------------------------

  /** A chain of directories from the root, each a child of the one before. */
  ghost predicate IsChain(d: Disk, s: seq<Ino>)
    requires d.Valid()
  {
    |s| > 0 && s[0] == ROOT && forall k :: 0 <= k < |s| - 1 ==> Child(d, s[k], s[k + 1])
  }

  ghost predicate Reachable(d: Disk, i: Ino)
    requires d.Valid()
  {
    exists s :: IsChain(d, s) && s[|s| - 1] == i
  }

  lemma RootReachable(d: Disk)
    requires d.Valid()
    ensures Reachable(d, ROOT) && InRange(d, ROOT)
  {
    assert IsChain(d, [ROOT]) && [ROOT][|[ROOT]| - 1] == ROOT;
  }

  lemma ChildReachable(d: Disk, p: Ino, c: Ino)
    requires d.Valid() && Reachable(d, p) && Child(d, p, c)
    ensures Reachable(d, c)
  {
    var s :| IsChain(d, s) && s[|s| - 1] == p;
    var t := s + [c];
    assert forall k :: 0 <= k < |t| - 1 ==> Child(d, t[k], t[k + 1]);
    assert IsChain(d, t) && t[|t| - 1] == c;
  }

  lemma {:induction false} ChainInside(d: Disk, inside: set<Ino>, s: seq<Ino>)
    requires d.Valid() && IsChain(d, s) && ROOT in inside
    requires forall p, c :: p in inside && Child(d, p, c) ==> c in inside
    ensures s[|s| - 1] in inside
    decreases |s|
  {
    hide Child;
    if |s| > 1 {
      var init := s[..|s| - 1];
      forall k | 0 <= k < |init| - 1 ensures Child(d, init[k], init[k + 1]) { assert Child(d, s[k], s[k + 1]); }
      ChainInside(d, inside, init);
      assert Child(d, s[|s| - 2], s[|s| - 1]);
    }
  }

  /** Reachability is the least set with the root that is closed under children. */
  lemma ReachableInside(d: Disk, inside: set<Ino>, i: Ino)
    requires d.Valid() && ROOT in inside && Reachable(d, i)
    requires forall p, c :: p in inside && Child(d, p, c) ==> c in inside
    ensures i in inside
  {
    hide Child;
    var s :| IsChain(d, s) && s[|s| - 1] == i;
    ChainInside(d, inside, s);
  }

  lemma ReachableInRange(d: Disk, i: Ino)
    requires d.Valid() && Reachable(d, i)
    ensures InRange(d, i) && (i == ROOT || IsDirectory(d, i))
  {
    var s :| IsChain(d, s) && s[|s| - 1] == i;
    if |s| > 1 { assert Child(d, s[|s| - 2], s[|s| - 1]); }
  }

  // ---- References ------------------------------------------------------------------------

  /** The first n entries of a list that name the target, with their directory. */
  function Naming(p: Ino, l: seq<Entry>, n: nat, target: Ino): seq<(Ino, Name)>
    requires n <= |l|
  {
    if n == 0 then [] else Naming(p, l, n - 1, target) + if l[n - 1].0 == target then [(p, l[n - 1].1)] else []
  }

  /** The entries naming the target in a sequence of directories. */
  function References(d: Disk, dirs: seq<Ino>, target: Ino): seq<(Ino, Name)>
    requires d.Valid() && forall p :: p in dirs ==> InRange(d, p) && ListOf(d, p).Some?
  {
    if |dirs| == 0 then []
    else
      var init, p := dirs[..|dirs| - 1], dirs[|dirs| - 1];
      References(d, init, target) + Naming(p, ListOf(d, p).value, |ListOf(d, p).value|, target)
  }

  predicate NoDuplicates(s: seq<Ino>) {
    forall i, j :: 0 <= i < j < |s| ==> s[i] != s[j]
  }

  function AllInodes(d: Disk): (s: set<Ino>)
    ensures forall i :: i in s <==> InRange(d, i)
  {
    set i: Ino | i in UpTo(|d.inodes|) && i >= 1
  }

  /** Seen is what is done, being read or stacked, each once, and reachable. */
  ghost predicate Pending(d: Disk, before: seq<Ino>, stack: seq<Ino>, seen: set<Ino>)
    requires d.Valid()
  {
    && NoDuplicates(before + stack) && (forall i :: i in seen <==> i in before + stack)
    && forall i :: i in seen ==> Reachable(d, i)
  }

  lemma PushKeepsPending(d: Disk, before: seq<Ino>, stack: seq<Ino>, seen: set<Ino>, i: Ino)
    requires d.Valid() && Pending(d, before, stack, seen) && i !in seen && Reachable(d, i)
    ensures Pending(d, before, stack + [i], seen + {i})
  {
    hide Reachable;
    assert before + (stack + [i]) == before + stack + [i];
  }

  /** Reading one directory: note the entries that name the target, stack the directories not seen. */
  method ScanDirectory(d: Disk, dnum: Ino, l: seq<Entry>, target: Ino, stack0: seq<Ino>, seen0: set<Ino>, ghost before: seq<Ino>)
    returns (stack: seq<Ino>, seen: set<Ino>, found: seq<(Ino, Name)>)
    requires d.Valid() && InRange(d, dnum) && ListOf(d, dnum) == Some(l) && Reachable(d, dnum)
    requires Pending(d, before, stack0, seen0)
    ensures Pending(d, before, stack, seen) && stack0 <= stack && seen0 <= seen
    ensures found == Naming(dnum, l, |l|, target)
    ensures forall c :: Child(d, dnum, c) ==> c in seen
  {
    hide DirList, Reachable, Child, Pending;
    stack, seen, found := stack0, seen0, [];
    for k := 0 to |l|
      invariant found == Naming(dnum, l, k, target)
      invariant Pending(d, before, stack, seen) && stack0 <= stack && seen0 <= seen
      invariant forall e :: e in l[..k] && !IsDot(e.1) && IsDirectory(d, e.0) ==> e.0 in seen
    {
      var e := l[k];
      if e.0 == target { found := found + [(dnum, e.1)]; }
      assert l[..k + 1] == l[..k] + [e];
      if !IsDot(e.1) && 1 <= e.0 <= |d.inodes| {
        if NodeOf(d, e.0).kind == DirType && e.0 !in seen {
          ListedChild(d, dnum, l, e);
          ChildReachable(d, dnum, e.0);
          PushKeepsPending(d, before, stack, seen, e.0);
          seen := seen + {e.0};
          stack := stack + [e.0];
        }
      }
    }
    assert l[..|l|] == l;
    ListedChildren(d, dnum, l, seen);
  }

  /** All entries that name the target, each reachable directory read once; false when a directory
      cannot be read. `order` is the order of reading. */
  method FindReferences(d: Disk, target: Ino) returns (ok: bool, results: seq<(Ino, Name)>, ghost order: seq<Ino>)
    requires d.Valid()
    ensures ok ==>
      && NoDuplicates(order) && (forall i :: i in order <==> Reachable(d, i))
      && (forall p :: p in order ==> InRange(d, p) && ListOf(d, p).Some?)
      && results == References(d, order, target)
    ensures ok <==> forall p :: Reachable(d, p) ==> InRange(d, p) && ListOf(d, p).Some?
  {
    hide DirList, Reachable, Child, NoDuplicates, References, Naming, Pending;
    results, order := [], [];
    var stack: seq<Ino>, seen: set<Ino> := [ROOT], {ROOT};
    ghost var done: set<Ino> := {};
    RootReachable(d);
    StartPending(d);
    NoReferences(d, target);
    while |stack| > 0
      invariant Pending(d, order, stack, seen) && ROOT in seen
      invariant forall p :: p in order ==> InRange(d, p) && ListOf(d, p).Some?
      invariant forall p, c :: p in order && Child(d, p, c) ==> c in seen
      invariant results == References(d, order, target) && forall i :: i in done <==> i in order
      decreases AllInodes(d) - done
    {
      var dnum := stack[|stack| - 1];
      PopKeepsPending(d, order, stack, seen);
      stack := stack[..|stack| - 1];
      ReachableInRange(d, dnum);
      var list := ReadDir(d, NodeOf(d, dnum));
      if list.None? {
        ok := false;
        return;
      }
      ReferencesStep(d, order, dnum, target);
      var found;
      stack, seen, found := ScanDirectory(d, dnum, list.value, target, stack, seen, order + [dnum]);
      results := results + found;
      done := done + {dnum};
      order := order + [dnum];
    }
    ok := true;
    NothingPending(d, order, stack, seen);
    forall i | Reachable(d, i) ensures i in order {
      ReachableInside(d, seen, i);
    }
  }

  lemma StartPending(d: Disk)
    requires d.Valid()
    ensures Pending(d, [], [ROOT], {ROOT})
  {
    RootReachable(d);
    assert [] + [ROOT] == [ROOT];
  }

  lemma PopKeepsPending(d: Disk, order: seq<Ino>, stack: seq<Ino>, seen: set<Ino>)
    requires d.Valid() && |stack| > 0 && Pending(d, order, stack, seen)
    ensures var rest, x := stack[..|stack| - 1], stack[|stack| - 1];
      Pending(d, order + [x], rest, seen) && Reachable(d, x) && x !in order && x in seen
  {
    hide Reachable;
    PopKeepsDistinct(order, stack);
    Unread(order, stack[|stack| - 1], stack[..|stack| - 1]);
  }

  lemma NothingPending(d: Disk, order: seq<Ino>, stack: seq<Ino>, seen: set<Ino>)
    requires d.Valid() && |stack| == 0 && Pending(d, order, stack, seen)
    ensures NoDuplicates(order) && forall i :: (i in seen <==> i in order) && (i in seen ==> Reachable(d, i))
  {
    hide Reachable;
    assert order + stack == order;
  }

  lemma NoReferences(d: Disk, target: Ino)
    requires d.Valid()
    ensures References(d, [], target) == []
  {
  }

  lemma ReferencesStep(d: Disk, order: seq<Ino>, p: Ino, target: Ino)
    requires d.Valid() && (forall q :: q in order ==> InRange(d, q) && ListOf(d, q).Some?) && InRange(d, p) && ListOf(d, p).Some?
    ensures (forall q :: q in order + [p] ==> InRange(d, q) && ListOf(d, q).Some?)
    ensures References(d, order + [p], target)
         == References(d, order, target) + Naming(p, ListOf(d, p).value, |ListOf(d, p).value|, target)
  {
    hide DirList, Naming;
    assert (order + [p])[..|order + [p]| - 1] == order;
  }

  lemma Unread(order: seq<Ino>, x: Ino, rest: seq<Ino>)
    requires NoDuplicates(order + [x] + rest)
    ensures x !in order
  {
    var t := order + [x] + rest;
    assert t[|order|] == x && forall i :: 0 <= i < |order| ==> t[i] == order[i];
  }

  lemma PopKeepsDistinct(order: seq<Ino>, stack: seq<Ino>)
    requires |stack| > 0 && NoDuplicates(order + stack)
    ensures var rest, x := stack[..|stack| - 1], stack[|stack| - 1];
      && NoDuplicates(order + [x] + rest)
      && forall i :: i in order + [x] + rest <==> i in order + stack
  {
    var rest, x := stack[..|stack| - 1], stack[|stack| - 1];
    var s, t := order + stack, order + [x] + rest;
    assert rest + [x] == stack;
    forall i, j | 0 <= i < j < |t| ensures t[i] != t[j] {
      var n := |order|;
      var si := if i < n then i else if i == n then |s| - 1 else i - 1;
      var sj := if j < n then j else if j == n then |s| - 1 else j - 1;
      assert t[i] == s[si] && t[j] == s[sj] && si != sj;
    }
    forall i ensures i in t <==> i in s {
      assert i in t <==> i in order || i == x || i in rest;
      assert i in stack <==> i in rest || i == x;
    }
  }

  lemma ListedChild(d: Disk, p: Ino, l: seq<Entry>, e: Entry)
    requires d.Valid() && InRange(d, p) && ListOf(d, p) == Some(l) && e in l && !IsDot(e.1) && IsDirectory(d, e.0)
    ensures Child(d, p, e.0)
  {
  }

  /** Once all entries have been looked at, all children have been seen. */
  lemma ListedChildren(d: Disk, p: Ino, l: seq<Entry>, seen: set<Ino>)
    requires d.Valid() && InRange(d, p) && ListOf(d, p) == Some(l)
    requires forall e :: e in l && !IsDot(e.1) && IsDirectory(d, e.0) ==> e.0 in seen
    ensures forall c :: Child(d, p, c) ==> c in seen
  {
  }
}
