/** Link counts are exact: every operation of the file layer keeps nlinks equal to the number of
    entries that name the inode in directories that have not been removed. */
module LinkCounts {
  import opened Words
  import opened PlainStore

  type Place = (Ino, Name)

  /** A directory that has not been removed. */
  predicate Live(st: Store, d: Ino) {
    IsDir(st, d) && !st.nodes[d].deleted
  }

  /** The entry (d, n) of a live directory names i. */
  predicate Names(st: Store, p: Place, i: Ino) {
    Live(st, p.0) && p.1 in st.nodes[p.0].entries && st.nodes[p.0].entries[p.1] == i
  }

  /** All entries that name i. */
  ghost function Named(st: Store, i: Ino): set<Place> {
    set d, n | d in st.nodes && n in st.nodes[d].entries && Names(st, (d, n), i) :: (d, n)
  }

  lemma NamedMember(st: Store, i: Ino, p: Place)
    ensures p in Named(st, i) <==> Names(st, p, i)
  {
  }

  predicate IsDot(n: Name) {
    n == "." || n == ".."
  }

  /** How far the count of i is off. */
  ghost function Off(st: Store, i: Ino): int {
    (if i in st.nodes then st.nodes[i].nlinks else 0) - |Named(st, i)|
  }

  ghost predicate HasChild(st: Store, p: Ino, c: Ino) {
    exists n :: !IsDot(n) && Names(st, (p, n), c)
  }

  /** p is the directory above d: a live one that has d as a child; the root is above itself. */
  ghost predicate Above(st: Store, d: Ino, p: Ino, root: Ino) {
    && Names(st, (d, ".."), p) && Live(st, p)
    && if d == root then p == root else HasChild(st, p, d)
  }

  ghost predicate DirOk(st: Store, d: Ino, root: Ino) {
    Live(st, d) ==> Names(st, (d, "."), d) && exists p :: Above(st, d, p, root)
  }

  /** A directory named by an ordinary entry is live, is not the root, has that entry's directory as its
      "..", and is named by no other ordinary entry. */
  ghost predicate ChildOk(st: Store, p: Place, c: Ino, root: Ino) {
    Names(st, p, c) && !IsDot(p.1) && IsDir(st, c) ==>
      && Live(st, c) && c != root && Names(st, (c, ".."), p.0)
      && forall q: Place :: Names(st, q, c) && !IsDot(q.1) ==> q == p
  }

  /** The shape of a store: a name for every directory, parents consistent, nothing dangling, numbers
      unused above next. It does not say that the directories form a tree. */
  ghost predicate Shaped(st: Store, root: Ino) {
    && Live(st, root)
    && (forall d :: DirOk(st, d, root))
    && (forall p, c :: ChildOk(st, p, c, root))
    && (forall p: Place, i :: Names(st, p, i) ==> i in st.nodes)
    && (forall i :: i in st.nodes ==> i < st.next)
  }

  /** Shaped, and every link count exact. */
  ghost predicate Linked(st: Store, root: Ino) {
    Shaped(st, root) && forall i :: Off(st, i) == 0
  }

  // ---- One entry more or less ------------------------------------------------------------

  /** st' has the same live directories as st and differs in one entry of one of them. */
  ghost predicate OneEntryApart(st: Store, st': Store, p: Place) {
    && (forall d :: Live(st', d) <==> Live(st, d))
    && (forall q: Place, i :: q != p ==> (Names(st', q, i) <==> Names(st, q, i)))
  }

  lemma EntryChange(st: Store, st': Store, p: Place, i: Ino)
    requires OneEntryApart(st, st', p)
    ensures |Named(st', i)| == |Named(st, i)| + (if Names(st', p, i) then 1 else 0) - (if Names(st, p, i) then 1 else 0)
  {
    hide Named, Names, Live;
    forall q: Place ensures q in Named(st', i) - {p} <==> q in Named(st, i) - {p} {
      NamedMember(st, i, q);
      NamedMember(st', i, q);
    }
    NamedMember(st, i, p);
    NamedMember(st', i, p);
    ApartByOne(Named(st, i), Named(st', i), p);
  }

  lemma ApartByOne(a: set<Place>, b: set<Place>, x: Place)
    requires forall s :: s in b - {x} <==> s in a - {x}
    ensures |b| == |a| + (if x in b then 1 else 0) - (if x in a then 1 else 0)
  {
    assert b - {x} == a - {x};
    assert x in a ==> a == (a - {x}) + {x};
    assert x in b ==> b == (b - {x}) + {x};
    assert x !in a ==> a - {x} == a;
    assert x !in b ==> b - {x} == b;
  }

  /** Setting a free name. */
  lemma SetApart(st: Store, d: Ino, n: Name, i: Ino)
    requires d in st.nodes
    ensures OneEntryApart(st, SetEntry(st, d, n, i), (d, n))
    ensures Live(st, d) ==> Names(SetEntry(st, d, n, i), (d, n), i)
  {
  }

  lemma RemoveApart(st: Store, d: Ino, n: Name)
    requires d in st.nodes
    ensures OneEntryApart(st, RemoveEntry(st, d, n), (d, n))
    ensures forall i :: !Names(RemoveEntry(st, d, n), (d, n), i)
  {
  }

  /** Same entries, same live directories: link counts, contents and owners do not matter. */
  ghost predicate SameNames(st: Store, st': Store) {
    && (forall d :: Live(st', d) <==> Live(st, d))
    && (forall q: Place, i :: Names(st', q, i) <==> Names(st, q, i))
  }

  lemma SameNamed(st: Store, st': Store, i: Ino)
    requires forall q: Place, x :: Names(st', q, x) <==> Names(st, q, x)
    ensures Named(st', i) == Named(st, i)
  {
    hide Names, Live, Named;
    forall q: Place ensures q in Named(st', i) <==> q in Named(st, i) {
      NamedMember(st, i, q);
      NamedMember(st', i, q);
    }
  }

  lemma CountsOnly(st: Store, i: Ino, n: Node)
    requires i in st.nodes && n.kind == st.nodes[i].kind && n.entries == st.nodes[i].entries
    requires n.deleted == st.nodes[i].deleted || n.kind != Directory
    ensures SameNames(st, Put(st, i, n))
  {
  }

  // ---- What each small step does to the counts ---------------------------------------------

  function Bit(b: bool): int {
    if b then 1 else 0
  }

  lemma AddLinksOff(st: Store, v: Ino, k: int, i: Ino)
    requires v in st.nodes
    ensures Off(AddLinks(st, v, k), i) == Off(st, i) + if i == v then k else 0
    ensures SameNames(st, AddLinks(st, v, k))
  {
    CountsOnly(st, v, st.nodes[v].(nlinks := st.nodes[v].nlinks + k));
    SameNamed(st, AddLinks(st, v, k), i);
  }

  lemma DropLinkOff(st: Store, v: Ino, i: Ino)
    requires v in st.nodes && st.nodes[v].nlinks >= 1
    ensures Off(DropLink(st, v), i) == Off(st, i) - Bit(i == v)
    ensures SameNames(st, DropLink(st, v))
  {
    CountsOnly(st, v, st.nodes[v].(nlinks := st.nodes[v].nlinks - 1));
    SameNamed(st, DropLink(st, v), i);
  }

  /** A live directory's entry n changes to name v. */
  lemma SetEntryOff(st: Store, d: Ino, n: Name, v: Ino, i: Ino)
    requires Live(st, d)
    ensures Off(SetEntry(st, d, n, v), i) == Off(st, i) - Bit(i == v) + Bit(Names(st, (d, n), i))
  {
    hide Named;
    SetApart(st, d, n, v);
    EntryChange(st, SetEntry(st, d, n, v), (d, n), i);
  }

  lemma RemoveEntryOff(st: Store, d: Ino, n: Name, i: Ino)
    requires Live(st, d)
    ensures Off(RemoveEntry(st, d, n), i) == Off(st, i) + Bit(Names(st, (d, n), i))
  {
    hide Named;
    RemoveApart(st, d, n);
    EntryChange(st, RemoveEntry(st, d, n), (d, n), i);
  }

  /** A new entry in a live directory, with its count. */
  lemma LinkOff(st: Store, d: Ino, n: Name, v: Ino, i: Ino)
    requires Live(st, d) && v in st.nodes && n !in st.nodes[d].entries
    ensures Off(LinkEntry(st, d, n, v), i) == Off(st, i)
  {
    hide Off;
    SetEntryOff(st, d, n, v, i);
    AddLinksOff(SetEntry(st, d, n, v), v, 1, i);
  }

  /** Removing an entry whose inode survives, or is no directory. */
  lemma UnlinkOff(st: Store, d: Ino, n: Name, v: Ino, i: Ino)
    requires Names(st, (d, n), v) && v in st.nodes && st.nodes[v].nlinks >= 1
    requires !IsDir(st, v) || st.nodes[v].nlinks >= 2
    ensures Off(UnlinkEntry(st, d, n), i) == Off(st, i)
  {
    hide Off, Named;
    var st1 := RemoveEntry(st, d, n);
    RemoveEntryOff(st, d, n, i);
    DropLinkOff(st1, v, i);
    var st2 := DropLink(st1, v);
    if st.nodes[v].kind != Directory { DeletedOff(st2, v, i); }
  }

  lemma DeletedOff(st: Store, v: Ino, i: Ino)
    requires v in st.nodes && st.nodes[v].kind != Directory
    ensures Off(Put(st, v, st.nodes[v].(deleted := true)), i) == Off(st, i)
  {
    CountsOnly(st, v, st.nodes[v].(deleted := true));
    SameNamed(st, Put(st, v, st.nodes[v].(deleted := true)), i);
  }

  // ---- Shape: entries that name files ---------------------------------------------------------------

  /** Old inodes keep their kind; the set of live directories is the same. */
  ghost predicate SameDirs(st: Store, st': Store) {
    && st.next <= st'.next && (forall i :: i in st'.nodes ==> i < st'.next)
    && (forall i :: i in st.nodes ==> i in st'.nodes)
    && (forall i :: IsDir(st', i) <==> IsDir(st, i))
    && (forall i :: Live(st', i) <==> Live(st, i))
  }

  lemma ChildKept(st: Store, st': Store, p: Ino, c: Ino)
    requires HasChild(st, p, c) && forall n :: !IsDot(n) && Names(st, (p, n), c) ==> Names(st', (p, n), c)
    ensures HasChild(st', p, c)
  {
    var n :| !IsDot(n) && Names(st, (p, n), c);
    assert Names(st', (p, n), c);
  }

  /** Adding or removing an ordinary entry p for a file v. */
  lemma FileEntryShaped(st: Store, st': Store, root: Ino, p: Place, v: Ino)
    requires Shaped(st, root) && SameDirs(st, st') && !IsDot(p.1) && !IsDir(st', v) && v in st'.nodes
    requires forall q: Place, i :: q != p ==> (Names(st', q, i) <==> Names(st, q, i))
    requires forall i :: (Names(st, p, i) || Names(st', p, i)) ==> i == v
    ensures Shaped(st', root)
  {
    hide Names, Live, IsDir;
    forall d ensures DirOk(st', d, root) { FileDirOk(st, st', root, p, v, d); }
    forall q: Place, c ensures ChildOk(st', q, c, root) { FileChildOk(st, st', root, p, v, q, c); }
  }

  lemma FileDirOk(st: Store, st': Store, root: Ino, p: Place, v: Ino, d: Ino)
    requires DirOk(st, d, root) && SameDirs(st, st') && !IsDot(p.1) && !IsDir(st', v)
    requires forall q: Place, i :: q != p ==> (Names(st', q, i) <==> Names(st, q, i))
    requires forall i :: (Names(st, p, i) || Names(st', p, i)) ==> i == v
    ensures DirOk(st', d, root)
  {
    hide Names, Live;
    if Live(st', d) {
      LiveIsDir(st', d);
      var a :| Above(st, d, a, root);
      if d != root { ChildKept(st, st', a, d); }
      assert Above(st', d, a, root);
    }
  }

  lemma LiveIsDir(st: Store, d: Ino)
    requires Live(st, d)
    ensures IsDir(st, d) && d in st.nodes
  {
  }

  lemma FileChildOk(st: Store, st': Store, root: Ino, p: Place, v: Ino, q: Place, c: Ino)
    requires Shaped(st, root) && SameDirs(st, st') && !IsDot(p.1) && !IsDir(st', v)
    requires forall q: Place, i :: q != p ==> (Names(st', q, i) <==> Names(st, q, i))
    requires forall i :: (Names(st, p, i) || Names(st', p, i)) ==> i == v
    ensures ChildOk(st', q, c, root)
  {
    hide Names, Live, DirOk;
    assert ChildOk(st, q, c, root);
  }

  // ---- Shape: a new directory -----------------------------------------------------------------------

  lemma MkdirShaped(st: Store, st': Store, root: Ino, p: Place, c: Ino)
    requires Shaped(st, root) && Live(st, p.0) && !IsDot(p.1) && c !in st.nodes && forall i :: !Names(st, p, i)
    requires forall i :: i in st'.nodes <==> i in st.nodes || i == c
    requires forall i :: i in st'.nodes ==> i < st'.next
    requires forall i :: IsDir(st', i) <==> IsDir(st, i) || i == c
    requires forall i :: Live(st', i) <==> Live(st, i) || i == c
    requires forall q: Place, i :: Names(st', q, i) <==>
      Names(st, q, i) || (q == p && i == c) || (q == (c, ".") && i == c) || (q == (c, "..") && i == p.0)
    ensures Shaped(st', root)
  {
    hide Names, Live, IsDir;
    assert Names(st', p, c);
    LiveIsDir(st, p.0);
    FreshUnnamed(st, root, c);
    forall d ensures DirOk(st', d, root) {
      if Live(st', d) {
        if d == c {
          assert HasChild(st', p.0, c);
          assert Above(st', c, p.0, root);
        } else {
          assert DirOk(st, d, root);
          var a :| Above(st, d, a, root);
          if d != root { ChildKept(st, st', a, d); }
          assert Above(st', d, a, root);
        }
      }
    }
    forall q: Place, x ensures ChildOk(st', q, x, root) {
      assert ChildOk(st, q, x, root);
    }
  }

  lemma FreshUnnamed(st: Store, root: Ino, c: Ino)
    requires Shaped(st, root) && c !in st.nodes
    ensures c != root && !IsDir(st, c) && !Live(st, c)
    ensures forall q: Place :: !Names(st, q, c)
    ensures forall n, i :: !Names(st, (c, n), i)
  {
  }

  // ---- Shape: an empty directory goes ------------------------------------------------------------------

  /** Directory v holds nothing but its two links. */
  ghost predicate OnlyDots(st: Store, v: Ino) {
    forall n, i :: Names(st, (v, n), i) ==> IsDot(n)
  }

  lemma EmptyHasNoChild(st: Store, v: Ino, d: Ino)
    requires OnlyDots(st, v)
    ensures !HasChild(st, v, d)
  {
  }

  lemma RmdirShaped(st: Store, st': Store, root: Ino, p: Place, v: Ino)
    requires Shaped(st, root) && Names(st, p, v) && !IsDot(p.1) && IsDir(st, v) && OnlyDots(st, v)
    requires (forall i :: i in st'.nodes <==> i in st.nodes) && st'.next == st.next
    requires forall i :: IsDir(st', i) <==> IsDir(st, i)
    requires forall i :: Live(st', i) <==> Live(st, i) && i != v
    requires forall q: Place, i :: Names(st', q, i) <==> Names(st, q, i) && q != p && q.0 != v
    ensures Shaped(st', root)
  {
    hide Names, Live, IsDir, OnlyDots;
    assert ChildOk(st, p, v, root);
    forall d ensures DirOk(st', d, root) {
      if Live(st', d) {
        assert DirOk(st, d, root);
        var a :| Above(st, d, a, root);
        EmptyHasNoChild(st, v, d);
        if d != root { ChildKept(st, st', a, d) by { OneName(st, p, v, d); } }
        assert Above(st', d, a, root);
      }
    }
    forall q: Place, x ensures ChildOk(st', q, x, root) {
      assert ChildOk(st, q, x, root);
    }
  }

  /** A place names one inode. */
  lemma OneName(st: Store, p: Place, v: Ino, d: Ino)
    ensures Names(st, p, v) && Names(st, p, d) ==> v == d
  {
  }

  // ---- Shape: a directory moves --------------------------------------------------------------------------

  /** The directory v leaves place op for the free place np, and its ".." follows. The new place may lie
      below v itself: the shape survives that, though the store is then no tree. */
  lemma MoveShaped(st: Store, st': Store, root: Ino, op: Place, np: Place, v: Ino)
    requires Shaped(st, root) && SameDirs(st, st') && Names(st, op, v) && IsDir(st, v) && !IsDot(op.1)
    requires Live(st, np.0) && !IsDot(np.1) && forall i :: !Names(st, np, i)
    requires forall q: Place, i :: Names(st', q, i) <==>
      if q == np then i == v else if q == op then false else if q == (v, "..") then i == np.0 else Names(st, q, i)
    ensures Shaped(st', root)
  {
    hide Names, Live, IsDir;
    assert ChildOk(st, op, v, root);
    assert DirOk(st, v, root);
    LiveIsDir(st, np.0);
    assert Names(st', np, v);
    forall d ensures DirOk(st', d, root) {
      if Live(st', d) {
        assert DirOk(st, d, root);
        var a :| Above(st, d, a, root);
        if d == v {
          assert HasChild(st', np.0, v);
          assert Above(st', v, np.0, root);
        } else {
          if d != root { ChildKept(st, st', a, d) by { OneName(st, op, v, d); } }
          assert Above(st', d, a, root);
        }
      }
    }
    forall q: Place, x ensures ChildOk(st', q, x, root) {
      assert ChildOk(st, q, x, root);
    }
  }

  // ---- Walking stays among live directories -----------------------------------------------------------------

  lemma EntryLive(st: Store, root: Ino, d: Ino, n: Name, i: Ino)
    requires Shaped(st, root) && Names(st, (d, n), i) && IsDir(st, i)
    ensures Live(st, i)
  {
    assert DirOk(st, d, root);
    assert ChildOk(st, (d, n), i, root);
    if IsDot(n) {
      var a :| Above(st, d, a, root);
    }
  }

  lemma {:induction false} WalkLive(st: Store, parts: seq<Name>, cur: Ino, top: Ino, root: Ino)
    requires Shaped(st, root) && cur in st.nodes && (IsDir(st, cur) ==> Live(st, cur))
    ensures var r := Walk(st, parts, cur, top); r.Ok? && IsDir(st, r.value) ==> Live(st, r.value)
    decreases |parts|
  {
    hide Shaped;
    if |parts| > 0 {
      var part := parts[0];
      if part == "" || part == "." || (part == ".." && cur == top) {
        WalkLive(st, parts[1..], cur, top, root);
      } else if IsDir(st, cur) {
        var next := Lookup(st, cur, part);
        if next.Ok? && next.value.Some? {
          assert Names(st, (cur, part), next.value.value);
          if IsDir(st, next.value.value) { EntryLive(st, root, cur, part, next.value.value); }
          WalkLive(st, parts[1..], next.value.value, top, root);
        }
      }
    }
  }

  /** The directory that the path makes or takes an entry in, if it leads to one, has not been removed. */
  ghost predicate InLive(st: Store, path: Path, cwd: Ino, top: Ino) {
    && cwd in st.nodes && top in st.nodes
    && (WalkParent(st, path, cwd, top).Ok? ==> Live(st, WalkParent(st, path, cwd, top).value.0))
  }

  /** So it is with every path that starts from a directory that has not been removed: an absolute one from the
      caller's root directory, a relative one from its working directory. */
  lemma ParentLive(st: Store, path: Path, cwd: Ino, top: Ino, root: Ino)
    requires Shaped(st, root) && cwd in st.nodes && top in st.nodes && Live(st, Start(path, cwd, top))
    ensures InLive(st, path, cwd, top)
  {
    hide Shaped;
    var parts := Trim(path.parts);
    if |parts| > 0 { WalkLive(st, parts[..|parts| - 1], Start(path, cwd, top), top, root); }
  }

  // ---- Operations ---------------------------------------------------------------------------------------------

  lemma NewInodeOff(st: Store, root: Ino, n: Node, i: Ino)
    requires Linked(st, root) && n.nlinks == 0 && n.entries == map[] && !n.deleted
    ensures var (st1, r) := NewInode(st, n);
      && Off(st1, i) == 0 && (r.Ok? ==> r.value !in st.nodes)
      && forall q: Place, x :: Names(st1, q, x) <==> Names(st, q, x)
  {
    var (st1, r) := NewInode(st, n);
    SameNamed(st, st1, i);
    assert Off(st, i) == 0;
  }

  lemma OffZero(st: Store, root: Ino, i: Ino)
    requires Linked(st, root)
    ensures Off(st, i) == 0 && Shaped(st, root)
  {
  }

  lemma LinkedIntro(st: Store, root: Ino)
    requires Shaped(st, root) && forall i :: Off(st, i) == 0
    ensures Linked(st, root)
  {
  }

  /** Adding an ordinary name for an inode that is no directory. */
  lemma LinkLinked(st: Store, d: Ino, n: Name, v: Ino, root: Ino)
    requires Shaped(st, root) && (forall i :: Off(st, i) == 0)
    requires Live(st, d) && !IsDot(n) && v in st.nodes && !IsDir(st, v) && n !in st.nodes[d].entries
    ensures Linked(LinkEntry(st, d, n, v), root)
  {
    hide Shaped, Off;
    var st' := LinkEntry(st, d, n, v);
    forall i ensures Off(st', i) == 0 { LinkOff(st, d, n, v, i); }
    NumbersBelow(st, root);
    FileEntryShaped(st, st', root, (d, n), v);
    LinkedIntro(st', root);
  }

  lemma NumbersBelow(st: Store, root: Ino)
    requires Shaped(st, root)
    ensures forall i :: i in st.nodes ==> i < st.next
  {
  }

  lemma CreateLinked(st: Store, path: Path, n: Node, cwd: Ino, top: Ino, root: Ino)
    requires Linked(st, root) && InLive(st, path, cwd, top)
    requires n.kind != Directory && n.nlinks == 0 && n.entries == map[] && !n.deleted
    ensures Linked(Create(st, path, n, cwd, top).0, root)
  {
    hide Linked, Off, Names;
    LinkedShape(st, root);
    var w := WalkParent(st, path, cwd, top);
    if w.Ok? && Lookup(st, w.value.0, w.value.1) == Ok(None) {
      var (st1, r) := NewInode(st, n);
      forall i ensures Off(st1, i) == 0 { NewInodeOff(st, root, n, i); }
      NewInodeOff(st, root, n, 0);
      NewFileShaped(st, st1, root);
      if r.Ok? { LinkLinked(st1, w.value.0, w.value.1, r.value, root); }
      else { LinkedIntro(st1, root); }
    }
  }

  lemma LinkedShape(st: Store, root: Ino)
    requires Linked(st, root)
    ensures Shaped(st, root) && Live(st, root)
  {
  }

  /** A new file without a name, or a number used up, keeps the shape. */
  lemma NewFileShaped(st: Store, st': Store, root: Ino)
    requires Shaped(st, root) && SameDirs(st, st') && forall q: Place, x :: Names(st', q, x) <==> Names(st, q, x)
    ensures Shaped(st', root)
  {
    hide Names, Live, IsDir;
    forall d ensures DirOk(st', d, root) {
      assert DirOk(st, d, root);
      if Live(st', d) {
        var a :| Above(st, d, a, root);
        if d != root { ChildKept(st, st', a, d); }
        assert Above(st', d, a, root);
      }
    }
    forall q: Place, x ensures ChildOk(st', q, x, root) { assert ChildOk(st, q, x, root); }
  }

  lemma HardLinkLinked(st: Store, oldPath: Path, newPath: Path, cwd: Ino, top: Ino, root: Ino)
    requires Linked(st, root) && InLive(st, newPath, cwd, top)
    ensures Linked(Link(st, oldPath, newPath, cwd, top).0, root)
  {
    hide Off, Names, Shaped;
    LinkedShape(st, root);
    var w := WalkParent(st, newPath, cwd, top);
    var v := Walk(st, oldPath.parts, Start(oldPath, cwd, top), top);
    if v.Ok? && !IsDir(st, v.value) && w.Ok? && Lookup(st, w.value.0, w.value.1) == Ok(None) {
      LinkLinked(st, w.value.0, w.value.1, v.value, root);
    }
  }

  /** A counted name means a positive count. */
  lemma NamedCounts(st: Store, p: Place, v: Ino)
    requires Names(st, p, v) && Off(st, v) >= 0 && v in st.nodes
    ensures st.nodes[v].nlinks >= 1
  {
    NamedMember(st, v, p);
    assert Named(st, v) != {};
  }

  lemma TwoNamesCount(st: Store, p: Place, q: Place, v: Ino)
    requires Names(st, p, v) && Names(st, q, v) && p != q && Off(st, v) >= 0 && v in st.nodes
    ensures st.nodes[v].nlinks >= 2
  {
    NamedMember(st, v, p);
    NamedMember(st, v, q);
    var rest := Named(st, v) - {p};
    assert q in rest;
    assert |Named(st, v)| == |rest| + 1;
    assert rest != {};
  }

  lemma UnlinkFileLinked(st: Store, d: Ino, n: Name, v: Ino, root: Ino)
    requires Linked(st, root) && Names(st, (d, n), v) && !IsDot(n) && v in st.nodes && !IsDir(st, v)
    ensures Linked(UnlinkEntry(st, d, n), root)
  {
    hide Shaped, Off, Linked, Named;
    OffZero(st, root, v);
    NamedCounts(st, (d, n), v);
    var st' := UnlinkEntry(st, d, n);
    forall i ensures Off(st', i) == 0 {
      OffZero(st, root, i);
      UnlinkOff(st, d, n, v, i);
    }
    NumbersBelow(st, root);
    FileEntryShaped(st, st', root, (d, n), v);
    LinkedIntro(st', root);
  }

  lemma UnlinkLinked(st: Store, path: Path, cwd: Ino, top: Ino, root: Ino)
    requires Linked(st, root) && InLive(st, path, cwd, top)
    ensures Linked(Unlink(st, path, cwd, top).0, root)
  {
    hide Off, Shaped, Linked;
    LinkedShape(st, root);
    var w := WalkParent(st, path, cwd, top);
    if w.Ok? {
      var l := Lookup(st, w.value.0, w.value.1);
      if l.Ok? && l.value.Some? && !IsDir(st, l.value.value) {
        UnlinkFileLinked(st, w.value.0, w.value.1, l.value.value, root);
      }
    }
  }

  /** The four steps of mkdir after the inode number is taken. */
  function MkdirSteps(st: Store, c: Ino, parent: Ino, name: Name): Store
    requires c in st.nodes && parent in st.nodes
  {
    var st2 := AddLinks(SetEntry(st, c, ".", c), c, 1);
    var st3 := AddLinks(SetEntry(st2, c, "..", parent), parent, 1);
    LinkEntry(st3, parent, name, c)
  }

  lemma MkdirOff(st: Store, c: Ino, parent: Ino, name: Name, i: Ino)
    requires Live(st, c) && Live(st, parent) && c != parent && st.nodes[c].entries == map[] && !IsDot(name)
    requires name !in st.nodes[parent].entries
    ensures Off(MkdirSteps(st, c, parent, name), i) == Off(st, i)
  {
    hide Off, Named;
    var a1 := SetEntry(st, c, ".", c);
    SetEntryOff(st, c, ".", c, i);
    AddLinksOff(a1, c, 1, i);
    var st2 := AddLinks(a1, c, 1);
    var a2 := SetEntry(st2, c, "..", parent);
    SetEntryOff(st2, c, "..", parent, i);
    AddLinksOff(a2, parent, 1, i);
    var st3 := AddLinks(a2, parent, 1);
    LinkOff(st3, parent, name, c, i);
  }

  lemma MkdirNames(st: Store, c: Ino, parent: Ino, name: Name)
    requires Live(st, c) && Live(st, parent) && c != parent && st.nodes[c].entries == map[] && !IsDot(name)
    requires name !in st.nodes[parent].entries
    ensures var st' := MkdirSteps(st, c, parent, name);
      && st'.next == st.next
      && (forall i :: i in st'.nodes <==> i in st.nodes)
      && (forall i :: IsDir(st', i) <==> IsDir(st, i))
      && (forall i :: Live(st', i) <==> Live(st, i))
      && (forall q: Place, i :: Names(st', q, i) <==>
           Names(st, q, i) || (q == (parent, name) && i == c) || (q == (c, ".") && i == c) || (q == (c, "..") && i == parent))
  {
  }

  lemma MkdirLinked(st: Store, path: Path, perm: nat, uid: nat, gid: nat, cwd: Ino, top: Ino, root: Ino)
    requires Linked(st, root) && InLive(st, path, cwd, top)
    ensures Linked(Mkdir(st, path, perm, uid, gid, cwd, top).0, root)
  {
    hide Linked, Off, Shaped, Names;
    LinkedShape(st, root);
    var w := WalkParent(st, path, cwd, top);
    if w.Ok? && Lookup(st, w.value.0, w.value.1) == Ok(None) {
      var n := FreshNode(Directory, perm, uid, gid, 0);
      var (st1, r) := NewInode(st, n);
      forall i ensures Off(st1, i) == 0 { NewInodeOff(st, root, n, i); }
      NewInodeOff(st, root, n, 0);
      NumbersBelow(st, root);
      if r.Ok? { NewDirLinked(st, st1, r.value, w.value.0, w.value.1, root); }
      else {
        NewFileShaped(st, st1, root);
        LinkedIntro(st1, root);
      }
    }
  }

  lemma NewDirLinked(st: Store, st1: Store, c: Ino, parent: Ino, name: Name, root: Ino)
    requires Shaped(st, root) && (forall i :: Off(st1, i) == 0)
    requires Live(st, parent) && !IsDot(name) && name !in st.nodes[parent].entries && c !in st.nodes
    requires c in st1.nodes && st1.nodes == st.nodes[c := st1.nodes[c]] && Live(st1, c) && st1.nodes[c].entries == map[]
    requires forall i :: i in st1.nodes ==> i < st1.next
    requires forall q: Place, x :: Names(st1, q, x) <==> Names(st, q, x)
    ensures Linked(MkdirSteps(st1, c, parent, name), root)
  {
    hide Off, Shaped, MkdirSteps;
    var st' := MkdirSteps(st1, c, parent, name);
    MkdirNames(st1, c, parent, name);
    forall i ensures Off(st', i) == 0 { MkdirOff(st1, c, parent, name, i); }
    MkdirShaped(st, st', root, (parent, name), c);
    LinkedIntro(st', root);
  }

  // ---- rmdir ------------------------------------------------------------------------------------------------------

  /** The count of v is put right at last: nothing names it any more. */
  lemma RemovedUnnamed(st: Store, st': Store, root: Ino, p: Place, v: Ino)
    requires Shaped(st, root) && Names(st, p, v) && !IsDot(p.1) && IsDir(st, v) && OnlyDots(st, v)
    requires forall q: Place, i :: Names(st', q, i) <==> Names(st, q, i) && q != p && q.0 != v
    ensures Named(st', v) == {}
  {
    hide Names, Live, IsDir, OnlyDots;
    assert ChildOk(st, p, v, root);
    forall q: Place ensures q !in Named(st', v) {
      NamedMember(st', v, q);
      if Names(st', q, v) {
        NamerIsLive(st, q, v);
        assert DirOk(st, q.0, root);
        DotNamesSelf(st, q.0, v);
        var a :| Above(st, q.0, a, root);
        UpNames(st, q.0, a, v);
        EmptyHasNoChild(st, v, q.0);
      }
    }
  }

  lemma NamerIsLive(st: Store, q: Place, v: Ino)
    requires Names(st, q, v)
    ensures Live(st, q.0)
  {
  }

  lemma DotNamesSelf(st: Store, d: Ino, v: Ino)
    requires Names(st, (d, "."), d)
    ensures Names(st, (d, "."), v) ==> v == d
  {
  }

  lemma UpNames(st: Store, d: Ino, a: Ino, v: Ino)
    requires Names(st, (d, ".."), a)
    ensures Names(st, (d, ".."), v) ==> v == a
  {
  }

  lemma OneLess(a: set<Place>, b: set<Place>, x: Place)
    requires x in a && forall q :: q in b <==> q in a && q != x
    ensures |b| == |a| - 1
  {
    assert b == a - {x};
  }

  /** What removing the empty directory v leaves. */
  lemma RemoveDirNames(st: Store, parent: Ino, name: Name, v: Ino)
    requires Names(st, (parent, name), v) && IsDir(st, v) && v in st.nodes && parent != v && st.nodes[v].nlinks >= 2
    ensures var st' := RemoveDir(st, parent, name, v);
      && st'.next == st.next && (forall i :: i in st'.nodes <==> i in st.nodes)
      && (forall i :: IsDir(st', i) <==> IsDir(st, i))
      && (forall i :: Live(st', i) <==> Live(st, i) && i != v)
      && (forall q: Place, i :: Names(st', q, i) <==> Names(st, q, i) && q != (parent, name) && q.0 != v)
      && (forall i :: i in st.nodes ==>
           st'.nodes[i].nlinks == if i == v then 0 else if i == parent then Max(st.nodes[i].nlinks - 1, 0) else st.nodes[i].nlinks)
  {
  }

  lemma RemoveDirLinked(st: Store, parent: Ino, name: Name, v: Ino, root: Ino)
    requires Linked(st, root) && Names(st, (parent, name), v) && !IsDot(name) && IsDir(st, v) && v in st.nodes
    requires OnlyDots(st, v)
    ensures Linked(RemoveDir(st, parent, name, v), root)
  {
    hide Linked, Shaped, Off, OnlyDots, Named;
    var p := (parent, name);
    LinkedShape(st, root);
    RemovedFacts(st, p, v, root);
    OffZero(st, root, v);
    TwoNamesCount(st, p, (v, "."), v);
    RemoveDirNames(st, parent, name, v);
    var st' := RemoveDir(st, parent, name, v);
    RmdirShaped(st, st', root, p, v);
    forall i ensures Off(st', i) == 0 { RemovedOff(st, st', root, p, v, i); }
    LinkedIntro(st', root);
  }

  lemma RemovedFacts(st: Store, p: Place, v: Ino, root: Ino)
    requires Shaped(st, root) && Names(st, p, v) && !IsDot(p.1) && IsDir(st, v) && OnlyDots(st, v)
    ensures p.0 != v && Names(st, (v, "."), v) && Names(st, (v, ".."), p.0) && p.0 in st.nodes
  {
    assert ChildOk(st, p, v, root);
    assert DirOk(st, v, root);
  }

  lemma RemovedOff(st: Store, st': Store, root: Ino, p: Place, v: Ino, i: Ino)
    requires Linked(st, root) && Names(st, p, v) && !IsDot(p.1) && IsDir(st, v) && v in st.nodes && OnlyDots(st, v)
    requires forall x :: x in st'.nodes <==> x in st.nodes
    requires forall q: Place, x :: Names(st', q, x) <==> Names(st, q, x) && q != p && q.0 != v
    requires forall x :: x in st.nodes ==>
      st'.nodes[x].nlinks == if x == v then 0 else if x == p.0 then Max(st.nodes[x].nlinks - 1, 0) else st.nodes[x].nlinks
    ensures Off(st', i) == 0
  {
    hide Linked, Shaped, Named, Names, Live, IsDir;
    OffZero(st, root, i);
    RemovedFacts(st, p, v, root);
    if i == v {
      RemovedUnnamed(st, st', root, p, v);
    } else {
      forall q: Place
        ensures q in Named(st', i) <==> q in Named(st, i) && (i != p.0 || q != (v, ".."))
      {
        NamedMember(st, i, q);
        NamedMember(st', i, q);
        OneName(st, p, v, i);
        OneName(st, (v, "."), v, i);
        OneName(st, (v, ".."), p.0, i);
      }
      if i == p.0 {
        NamedMember(st, i, (v, ".."));
        OneLess(Named(st, i), Named(st', i), (v, ".."));
        NamedCounts(st, (v, ".."), i);
      } else {
        assert Named(st', i) == Named(st, i);
      }
    }
  }

  lemma RmdirAtLinked(st: Store, parent: Ino, name: Name, root: Ino)
    requires Linked(st, root) && Live(st, parent) && !IsDot(name)
    ensures parent in st.nodes && Linked(RmdirAt(st, parent, name).0, root)
  {
    hide Linked, Shaped, Off, RemoveDir;
    LiveIsDir(st, parent);
    var l := Lookup(st, parent, name);
    if l.Ok? && l.value.Some? && IsDir(st, l.value.value) && IsEmptyDir(st.nodes[l.value.value]) {
      RemoveDirLinked(st, parent, name, l.value.value, root);
    }
  }

  lemma RmdirLinked(st: Store, path: Path, cwd: Ino, top: Ino, root: Ino)
    requires Linked(st, root) && InLive(st, path, cwd, top)
    ensures Linked(Rmdir(st, path, cwd, top).0, root)
  {
    hide Linked, Shaped, Off, RmdirAt;
    LinkedShape(st, root);
    var w := WalkParent(st, path, cwd, top);
    if w.Ok? { RmdirAtLinked(st, w.value.0, w.value.1, root); }
  }

  // ---- rename -------------------------------------------------------------------------------------------------------

  lemma MoveFileLinked(st: Store, op: Place, np: Place, v: Ino, root: Ino)
    requires Linked(st, root) && Names(st, op, v) && !IsDir(st, v) && v in st.nodes && !IsDot(op.1) && !IsDot(np.1)
    requires Live(st, np.0) && np.1 !in st.nodes[np.0].entries && op != np
    ensures op.0 in st.nodes && np.0 in st.nodes && Linked(Move(st, op.0, op.1, np.0, np.1, v), root)
    ensures Move(st, op.0, op.1, np.0, np.1, v).nodes[v].nlinks == st.nodes[v].nlinks
  {
    hide Linked, Shaped, Off;
    LinkedShape(st, root);
    forall i ensures Off(st, i) == 0 { OffZero(st, root, i); }
    LinkLinked(st, np.0, np.1, v, root);
    var st1 := LinkEntry(st, np.0, np.1, v);
    UnlinkFileLinked(st1, op.0, op.1, v, root);
    OffZero(st, root, v);
    NamedCounts(st, op, v);
  }

  ghost predicate SameDirsOf(st: Store, st': Store) {
    && st'.next == st.next && (forall i :: i in st'.nodes <==> i in st.nodes)
    && (forall i :: IsDir(st', i) <==> IsDir(st, i))
    && (forall i :: Live(st', i) <==> Live(st, i))
  }

  lemma LinkNames(st: Store, p: Place, v: Ino)
    requires Live(st, p.0) && v in st.nodes
    ensures var st' := LinkEntry(st, p.0, p.1, v);
      && SameDirsOf(st, st') && st'.nodes[v].nlinks == st.nodes[v].nlinks + 1
      && (forall q: Place, i :: Names(st', q, i) <==> if q == p then i == v else Names(st, q, i))
  {
  }

  /** The last link but one or more goes: the inode stays. */
  lemma UnlinkNames(st: Store, p: Place, v: Ino)
    requires Names(st, p, v) && v in st.nodes && st.nodes[v].nlinks >= 2
    ensures var st' := UnlinkEntry(st, p.0, p.1);
      && SameDirsOf(st, st') && st'.nodes[v].nlinks == st.nodes[v].nlinks - 1
      && (forall q: Place, i :: Names(st', q, i) <==> Names(st, q, i) && q != p)
  {
  }

  /** The ".." of a moved directory. */
  function Reparent(st: Store, v: Ino, from: Ino, to: Ino): Store
    requires v in st.nodes && from in st.nodes && to in st.nodes
  {
    DropLink(AddLinks(SetEntry(st, v, "..", to), to, 1), from)
  }

  lemma ReparentNames(st: Store, v: Ino, from: Ino, to: Ino)
    requires Live(st, v) && from in st.nodes && to in st.nodes
    ensures var st' := Reparent(st, v, from, to);
      && SameDirsOf(st, st')
      && (forall q: Place, i :: Names(st', q, i) <==> if q == (v, "..") then i == to else Names(st, q, i))
  {
  }

  lemma ReparentOff(st: Store, v: Ino, from: Ino, to: Ino, i: Ino)
    requires Live(st, v) && from in st.nodes && to in st.nodes && from != to && Names(st, (v, ".."), from)
    requires st.nodes[from].nlinks >= 1
    ensures Off(Reparent(st, v, from, to), i) == Off(st, i)
  {
    hide Off, Named;
    var st1 := SetEntry(st, v, "..", to);
    SetEntryOff(st, v, "..", to, i);
    OneName(st, (v, ".."), from, i);
    AddLinksOff(st1, to, 1, i);
    DropLinkOff(AddLinks(st1, to, 1), from, i);
  }

  /** A directory moves: its own count goes up and down by one and is never zero, and the counts of the
      two parents follow its "..". */
  lemma MoveDirLinked(st: Store, op: Place, np: Place, v: Ino, root: Ino)
    requires Linked(st, root) && Names(st, op, v) && IsDir(st, v) && v in st.nodes && !IsDot(op.1) && !IsDot(np.1)
    requires Live(st, np.0) && np.1 !in st.nodes[np.0].entries && op != np
    ensures op.0 in st.nodes && np.0 in st.nodes && Linked(Move(st, op.0, op.1, np.0, np.1, v), root)
    ensures SameDirsOf(st, Move(st, op.0, op.1, np.0, np.1, v))
    ensures forall q: Place, i :: Names(Move(st, op.0, op.1, np.0, np.1, v), q, i) <==>
      if q == np then i == v else if q == op then false else if q == (v, "..") then i == np.0 else Names(st, q, i)
  {
    hide Linked, Shaped, Off, Named, Names, Live, LinkEntry, UnlinkEntry, Reparent;
    LinkedShape(st, root);
    LiveIsDir(st, np.0);
    MovingFacts(st, op, np, v, root);
    forall i ensures Names(st, (v, ".."), i) <==> i == op.0 { OneName(st, (v, ".."), op.0, i); }
    OffZero(st, root, v);
    NamedCounts(st, op, v);
    LinkNames(st, np, v);
    var st1 := LinkEntry(st, np.0, np.1, v);
    EntryOf(st1, op, v);
    UnlinkNames(st1, op, v);
    var st2 := UnlinkEntry(st1, op.0, op.1);
    forall i ensures Off(st2, i) == 0 {
      OffZero(st, root, i);
      LinkOff(st, np.0, np.1, v, i);
      UnlinkOff(st1, op.0, op.1, v, i);
    }
    var st' := Move(st, op.0, op.1, np.0, np.1, v);
    NumbersBelow(st, root);
    if op.0 == np.0 {
      assert st' == st2;
      MoveShaped(st, st', root, op, np, v);
    } else {
      NamedCounts(st2, (v, ".."), op.0);
      ReparentNames(st2, v, op.0, np.0);
      assert st' == Reparent(st2, v, op.0, np.0) by { MoveIsSteps(st, op, np, v); }
      forall i ensures Off(st', i) == 0 { ReparentOff(st2, v, op.0, np.0, i); }
      MoveShaped(st, st', root, op, np, v);
    }
    LinkedIntro(st', root);
  }

  lemma MoveIsSteps(st: Store, op: Place, np: Place, v: Ino)
    requires op.0 in st.nodes && np.0 in st.nodes && v in st.nodes && op != np && IsDir(st, v) && op.0 != np.0
    requires op.1 in st.nodes[op.0].entries && st.nodes[op.0].entries[op.1] == v
    ensures var st1 := LinkEntry(st, np.0, np.1, v);
      && op.1 in st1.nodes[op.0].entries && st1.nodes[op.0].entries[op.1] == v
      && Move(st, op.0, op.1, np.0, np.1, v) == Reparent(UnlinkEntry(st1, op.0, op.1), v, op.0, np.0)
  {
  }

  lemma EntryOf(st: Store, p: Place, v: Ino)
    requires Names(st, p, v)
    ensures p.0 in st.nodes && p.1 in st.nodes[p.0].entries && st.nodes[p.0].entries[p.1] == v && Live(st, p.0)
  {
  }

  lemma MovingFacts(st: Store, op: Place, np: Place, v: Ino, root: Ino)
    requires Shaped(st, root) && Names(st, op, v) && IsDir(st, v) && !IsDot(op.1) && Live(st, np.0)
    requires np.0 in st.nodes && np.1 !in st.nodes[np.0].entries
    ensures Live(st, v) && Names(st, (v, ".."), op.0) && (forall i :: !Names(st, np, i))
    ensures op.0 in st.nodes && op.1 in st.nodes[op.0].entries && st.nodes[op.0].entries[op.1] == v
  {
    assert ChildOk(st, op, v, root);
  }

  lemma DisplaceLinked(st: Store, p: Place, x: Ino, root: Ino)
    requires Linked(st, root) && Names(st, p, x) && x in st.nodes && !IsDot(p.1)
    ensures p.0 in st.nodes && p.1 in st.nodes[p.0].entries && st.nodes[p.0].entries[p.1] == x
    ensures Linked(Displace(st, p.0, p.1).0, root)
  {
    hide Linked, Shaped, Off, RmdirAt, UnlinkEntry;
    EntryOf(st, p, x);
    if IsDir(st, x) { RmdirAtLinked(st, p.0, p.1, root); } else { UnlinkFileLinked(st, p.0, p.1, x, root); }
  }

  /** Making room touches only the displaced name: the place to move from and the directories of both
      places are as they were. */
  lemma DisplaceLeaves(st: Store, op: Place, np: Place, x: Ino, v: Ino, root: Ino)
    requires Linked(st, root) && Names(st, np, x) && x in st.nodes && !IsDot(np.1)
    requires Names(st, op, v) && v in st.nodes && !IsDot(op.1) && x != v
    requires np.0 in st.nodes && np.1 in st.nodes[np.0].entries && st.nodes[np.0].entries[np.1] == x
    requires Displace(st, np.0, np.1).1.Ok?
    ensures var st1 := Displace(st, np.0, np.1).0;
      Names(st1, op, v) && v in st1.nodes && Live(st1, np.0) && np.0 in st1.nodes && np.1 !in st1.nodes[np.0].entries && op != np
  {
    hide Linked, Shaped, Off, Named;
    OffZero(st, root, x);
    LinkedShape(st, root);
    NamedCounts(st, np, x);
    OneName(st, np, x, v);
    if IsDir(st, x) {
      DotsOnly(st, x);
      RemovedFacts(st, np, x, root);
      TwoNamesCount(st, np, (x, "."), x);
      RemoveDirNames(st, np.0, np.1, x);
      NotBelow(st, op, x, v);
      Unentered(RemoveDir(st, np.0, np.1, x), np);
    } else {
      UnlinkFileNames(st, np, x);
      Unentered(UnlinkEntry(st, np.0, np.1), np);
    }
  }

  lemma Unentered(st: Store, p: Place)
    requires Live(st, p.0) && forall i :: !Names(st, p, i)
    ensures p.0 in st.nodes && p.1 !in st.nodes[p.0].entries
  {
    if p.1 in st.nodes[p.0].entries { assert Names(st, p, st.nodes[p.0].entries[p.1]); }
  }

  lemma DotsOnly(st: Store, x: Ino)
    requires x in st.nodes
    ensures IsEmptyDir(st.nodes[x]) ==> OnlyDots(st, x)
  {
  }

  /** An empty directory holds no ordinary entry, so it is not the directory of a place with one. */
  lemma NotBelow(st: Store, p: Place, x: Ino, v: Ino)
    requires Names(st, p, v) && !IsDot(p.1)
    ensures OnlyDots(st, x) ==> p.0 != x
  {
  }

  lemma UnlinkFileNames(st: Store, p: Place, v: Ino)
    requires Names(st, p, v) && v in st.nodes && !IsDir(st, v)
    ensures var st' := UnlinkEntry(st, p.0, p.1);
      && (forall i :: i in st'.nodes <==> i in st.nodes) && (forall i :: Live(st', i) <==> Live(st, i))
      && (forall q: Place, i :: Names(st', q, i) <==> Names(st, q, i) && q != p)
  {
  }

  lemma RenameOverLinked(st: Store, op: Place, np: Place, v: Ino, root: Ino)
    requires Linked(st, root) && Names(st, op, v) && v in st.nodes && !IsDot(op.1) && !IsDot(np.1)
    requires Live(st, np.0) && np.1 !in st.nodes[np.0].entries && op != np
    ensures var r := RenameOver(st, op.0, op.1, np.0, np.1, v); r.1.Ok? && Linked(r.0, root)
  {
    hide Linked, Shaped, Off, Move;
    if IsDir(st, v) { MoveDirLinked(st, op, np, v, root); } else { MoveFileLinked(st, op, np, v, root); }
  }

  /** rename keeps every count exact in all its cases: free or taken target, file or directory, same or
      another parent, even a directory moved below itself. */
  lemma RenameLinked(st: Store, oldPath: Path, newPath: Path, cwd: Ino, top: Ino, root: Ino)
    requires Linked(st, root) && InLive(st, oldPath, cwd, top) && InLive(st, newPath, cwd, top)
    ensures Linked(Rename(st, oldPath, newPath, cwd, top).0, root)
  {
    hide Linked, Shaped, Off, Displace, RenameOver, WalkParent;
    LinkedShape(st, root);
    var o, n := WalkParent(st, oldPath, cwd, top), WalkParent(st, newPath, cwd, top);
    if o.Ok? && n.Ok? {
      var lo, ln := Lookup(st, o.value.0, o.value.1), Lookup(st, n.value.0, n.value.1);
      if lo.Ok? && lo.value.Some? && ln.Ok? {
        var v := lo.value.value;
        assert Names(st, o.value, v);
        if ln.value.None? {
          RenameOverLinked(st, o.value, n.value, v, root);
        } else if ln.value.value != v {
          var x := ln.value.value;
          assert Names(st, n.value, x);
          DisplaceLinked(st, n.value, x, root);
          var (st1, r) := Displace(st, n.value.0, n.value.1);
          if r.Ok? {
            DisplaceLeaves(st, o.value, n.value, x, v, root);
            RenameOverLinked(st1, o.value, n.value, v, root);
          }
        }
      }
    }
  }

  // ---- Sequences of operations ------------------------------------------------------------------------

  datatype Op =
    | MakeNode(path: Path, node: Node)
    | MakeDir(path: Path, perm: nat, uid: nat, gid: nat)
    | RemoveDirectory(path: Path)
    | Remove(path: Path)
    | HardLink(oldPath: Path, newPath: Path)
    | Relocate(oldPath: Path, newPath: Path)
    | Contents(i: Ino, offset: nat, data: seq<Byte>)
    | Resize(i: Ino, size: nat)
    | Opened(i: Ino)
    | Closed(i: Ino)

  /** One operation issued by a process with working directory cwd and root directory top. */
  datatype Issued = Issued(op: Op, cwd: Ino, top: Ino)

  /** What the caller is told: an error, or a number (of an inode, of bytes, or zero). */
  type Reply = Outcome<nat>

  function Plain(r: Outcome<()>): Reply {
    match r
    case Ok(_) => Ok(0)
    case Err(e) => Err(e)
  }

  /** Open files and working directories keep their inode in memory; closing does not go below zero. */
  function Recount(st: Store, i: Ino, k: int): Store
    requires i in st.nodes
  {
    Put(st, i, st.nodes[i].(openRefs := Max(st.nodes[i].openRefs + k, 0)))
  }

  function OnNode(st: Store, op: Op): (Store, Reply)
    requires op.Contents? || op.Resize? || op.Opened? || op.Closed?
  {
    if op.i !in st.nodes then (st, Err(ENOENT))
    else
      match op
      case Contents(i, offset, data) => Write(st, i, offset, data)
      case Resize(i, size) => var (st', r) := Truncate(st, i, size); (st', Plain(r))
      case Opened(i) => (Recount(st, i, 1), Ok(0))
      case Closed(i) => (Recount(st, i, -1), Ok(0))
  }

  function Perform(st: Store, o: Issued): (Store, Reply)
    requires o.cwd in st.nodes && o.top in st.nodes
  {
    match o.op
    case MakeNode(path, n) => Create(st, path, n, o.cwd, o.top)
    case MakeDir(path, perm, uid, gid) => Mkdir(st, path, perm, uid, gid, o.cwd, o.top)
    case RemoveDirectory(path) => var (st', r) := Rmdir(st, path, o.cwd, o.top); (st', Plain(r))
    case Remove(path) => var (st', r) := Unlink(st, path, o.cwd, o.top); (st', Plain(r))
    case HardLink(p, q) => var (st', r) := Link(st, p, q, o.cwd, o.top); (st', Plain(r))
    case Relocate(p, q) => var (st', r) := Rename(st, p, q, o.cwd, o.top); (st', Plain(r))
    case _ => OnNode(st, o.op)
  }

  /** New inodes are fresh files, devices or fifos. */
  predicate Proper(o: Issued) {
    o.op.MakeNode? ==>
      var n := o.op.node;
      n.kind != Directory && n.nlinks == 0 && n.openRefs == 0 && n.data == [] && n.entries == map[] && !n.deleted
  }

  /** Entries are made and taken in directories that have not been removed. */
  ghost predicate AmongLive(st: Store, o: Issued) {
    match o.op
    case MakeNode(path, _) => InLive(st, path, o.cwd, o.top)
    case MakeDir(path, _, _, _) => InLive(st, path, o.cwd, o.top)
    case RemoveDirectory(path) => InLive(st, path, o.cwd, o.top)
    case Remove(path) => InLive(st, path, o.cwd, o.top)
    case HardLink(_, q) => InLive(st, q, o.cwd, o.top)
    case Relocate(p, q) => InLive(st, p, o.cwd, o.top) && InLive(st, q, o.cwd, o.top)
    case _ => true
  }

  /** Contents and open counts are not link counts. */
  lemma OpaqueLinked(st: Store, i: Ino, n: Node, root: Ino)
    requires Linked(st, root) && i in st.nodes && n == st.nodes[i].(data := n.data, openRefs := n.openRefs)
    ensures Linked(Put(st, i, n), root)
  {
    hide Off, Named;
    var st' := Put(st, i, n);
    CountsOnly(st, i, n);
    NewFileShaped(st, st', root);
    forall x ensures Off(st', x) == 0 { OpaqueOff(st, i, n, x); OffZero(st, root, x); }
  }

  lemma OpaqueOff(st: Store, i: Ino, n: Node, x: Ino)
    requires i in st.nodes && n == st.nodes[i].(data := n.data, openRefs := n.openRefs)
    ensures Off(Put(st, i, n), x) == Off(st, x)
  {
    CountsOnly(st, i, n);
    SameNamed(st, Put(st, i, n), x);
  }

  lemma OnNodeLinked(st: Store, op: Op, root: Ino)
    requires Linked(st, root) && (op.Contents? || op.Resize? || op.Opened? || op.Closed?)
    ensures Linked(OnNode(st, op).0, root)
  {
    hide Linked, Splice;
    if op.i in st.nodes { OpaqueLinked(st, op.i, OnNode(st, op).0.nodes[op.i], root); }
    if op.i in st.nodes { assert OnNode(st, op).0 == st || OnNode(st, op).0 == Put(st, op.i, OnNode(st, op).0.nodes[op.i]); }
  }

  lemma PerformLinked(st: Store, o: Issued, root: Ino)
    requires Linked(st, root) && o.cwd in st.nodes && o.top in st.nodes && AmongLive(st, o) && Proper(o)
    ensures Linked(Perform(st, o).0, root)
  {
    hide Linked, InLive, OnNode, Create, Mkdir, Rmdir, Unlink, Link, Rename;
    match o.op
    case MakeNode(path, n) => CreateLinked(st, path, n, o.cwd, o.top, root);
    case MakeDir(path, perm, uid, gid) => MkdirLinked(st, path, perm, uid, gid, o.cwd, o.top, root);
    case RemoveDirectory(path) => RmdirLinked(st, path, o.cwd, o.top, root);
    case Remove(path) => UnlinkLinked(st, path, o.cwd, o.top, root);
    case HardLink(p, q) => HardLinkLinked(st, p, q, o.cwd, o.top, root);
    case Relocate(p, q) => RenameLinked(st, p, q, o.cwd, o.top, root);
    case _ => OnNodeLinked(st, o.op, root);
  }

  /** Every operation of the sequence is issued by a process whose directories exist by then. */
  predicate AllPlaced(st: Store, ops: seq<Issued>)
    decreases |ops|
  {
    |ops| > 0 ==>
      && ops[0].cwd in st.nodes && ops[0].top in st.nodes && Proper(ops[0])
      && AllPlaced(Perform(st, ops[0]).0, ops[1..])
  }

  /** Every operation of the sequence finds its directories not removed by then. */
  ghost predicate AllIssued(st: Store, ops: seq<Issued>)
    requires AllPlaced(st, ops)
    decreases |ops|
  {
    |ops| > 0 ==> AmongLive(st, ops[0]) && AllIssued(Perform(st, ops[0]).0, ops[1..])
  }

  /** The store after the sequence, and the replies given. */
  function PerformAll(st: Store, ops: seq<Issued>): (Store, seq<Reply>)
    requires AllPlaced(st, ops)
    decreases |ops|
  {
    if |ops| == 0 then (st, [])
    else
      var (st1, r) := Perform(st, ops[0]);
      var (st2, rs) := PerformAll(st1, ops[1..]);
      (st2, [r] + rs)
  }

  /** Link counts are exact after any sequence of operations on a consistent store. */
  lemma {:induction false} CountsExact(st: Store, ops: seq<Issued>, root: Ino)
    requires Linked(st, root) && AllPlaced(st, ops) && AllIssued(st, ops)
    ensures Linked(PerformAll(st, ops).0, root)
    decreases |ops|
  {
    hide Linked, AmongLive, Perform;
    if |ops| > 0 {
      PerformLinked(st, ops[0], root);
      CountsExact(Perform(st, ops[0]).0, ops[1..], root);
    }
  }

  /** The condition is needed: a file made in a directory is counted exactly if and only if that
      directory has not been removed. */
  lemma RemovedParentMiscounts(st: Store, path: Path, n: Node, cwd: Ino, top: Ino, root: Ino)
    requires Linked(st, root) && cwd in st.nodes && top in st.nodes
    requires n.kind != Directory && n.nlinks == 0 && n.entries == map[] && !n.deleted
    requires Create(st, path, n, cwd, top).1.Ok?
    ensures var (st', r) := Create(st, path, n, cwd, top);
      Off(st', r.value) == 0 <==> Live(st, WalkParent(st, path, cwd, top).value.0)
  {
    hide Linked, Shaped, Named, WalkParent;
    var parent, name := WalkParent(st, path, cwd, top).value.0, WalkParent(st, path, cwd, top).value.1;
    var (st1, r) := NewInode(st, n);
    NewInodeOff(st, root, n, r.value);
    if Live(st, parent) {
      LinkOff(st1, parent, name, r.value, r.value);
    } else {
      var st2 := SetEntry(st1, parent, name, r.value);
      SameNamed(st1, st2, r.value);
      AddLinksOff(st2, r.value, 1, r.value);
    }
  }

  /** A directory that has been removed while a process works in it. */
  function Removed(): Store {
    var root := FreshNode(Directory, 0, 0, 0, 0).(nlinks := 2, entries := map["." := 1, ".." := 1]);
    var gone := FreshNode(Directory, 0, 0, 0, 0).(deleted := true, entries := map["." := 2, ".." := 1]);
    Store(map[1 := root, 2 := gone], 3)
  }

  lemma RemovedLinked()
    ensures Linked(Removed(), 1)
  {
    hide Named, Shaped;
    var st := Removed();
    RemovedShaped();
    forall i ensures Off(st, i) == 0 {
      var places: set<Place> := if i == 1 then {(1, "."), (1, "..")} else {};
      forall q: Place ensures q in Named(st, i) <==> q in places {
        NamedMember(st, i, q);
        RemovedNames(q, i);
      }
      assert Named(st, i) == places;
    }
  }

  lemma RemovedShaped()
    ensures Shaped(Removed(), 1)
  {
    assert Above(Removed(), 1, 1, 1);
  }

  lemma RemovedNames(q: Place, i: Ino)
    ensures Names(Removed(), q, i) <==> i == 1 && (q == (1, ".") || q == (1, ".."))
  {
  }

  /** A file made there has a link count of one and no name that counts. */
  lemma MadeInRemoved()
    ensures Linked(Removed(), 1)
    ensures var (st, r) := Create(Removed(), Path(false, ["f"]), FreshNode(Regular, 0, 0, 0, 0), 2, 1);
      r == Ok(3) && st.nodes[3].nlinks == 1 && Named(st, 3) == {}
  {
    hide Named, Linked;
    RemovedLinked();
    var st := Removed();
    var path: Path := Path(false, ["f"]);
    assert Trim(path.parts) == ["f"] && ["f"][..0] == [];
    assert WalkParent(st, path, 2, 1) == Ok((2, "f"));
    var st' := Create(st, path, FreshNode(Regular, 0, 0, 0, 0), 2, 1).0;
    forall q: Place ensures q !in Named(st', 3) { NamedMember(st', 3, q); }
  }
}
