/** What the operations of the file layer mean to a caller (kvfs.py): where paths lead, what each call leaves and
    which error it gives, and what a file reads as afterwards. */
module FileLaws {
  import opened Words
  import opened PlainStore
  import opened LinkCounts

  // ---- Paths ---------------------------------------------------------------------------------

  /** Walking a path is walking its first part, and then the rest from where that leads. */
  lemma {:induction false} WalkSplits(st: Store, p: seq<Name>, q: seq<Name>, cur: Ino, top: Ino)
    requires cur in st.nodes
    ensures var r := Walk(st, p, cur, top);
      Walk(st, p + q, cur, top) == if r.Ok? then Walk(st, q, r.value, top) else r
    decreases |p|
  {
    hide Lookup, IsDir;
    if |p| == 0 {
      assert p + q == q;
    } else {
      assert (p + q)[0] == p[0] && (p + q)[1..] == p[1..] + q;
      if p[0] == "" || p[0] == "." || (p[0] == ".." && cur == top) {
        WalkSplits(st, p[1..], q, cur, top);
      } else if IsDir(st, cur) && Lookup(st, cur, p[0]).Ok? && Lookup(st, cur, p[0]).value.Some? {
        LookupInside(st, cur, p[0]);
        WalkSplits(st, p[1..], q, Lookup(st, cur, p[0]).value.value, top);
      }
    }
  }

  lemma LookupInside(st: Store, d: Ino, n: Name)
    requires d in st.nodes && Lookup(st, d, n).Ok? && Lookup(st, d, n).value.Some?
    ensures Lookup(st, d, n).value.value in st.nodes
  {
  }

  /** One name: nothing and "." stay; ".." stays at the caller's root; any other name is an entry of the directory. */
  lemma WalkOne(st: Store, n: Name, cur: Ino, top: Ino)
    requires cur in st.nodes
    ensures Walk(st, [], cur, top) == Ok(cur)
    ensures var node := st.nodes[cur];
      Walk(st, [n], cur, top) ==
        if n == "" || n == "." then Ok(cur)
        else if node.kind != Directory then Err(20)
        else if n == ".." && cur == top then Ok(cur)
        else if n in node.entries && node.entries[n] in st.nodes then Ok(node.entries[n])
        else Err(2)
  {
    assert [n][1..] == [];
  }

  /** Up from a directory is the directory that names it, except at the caller's root. */
  lemma UpIsParent(st: Store, root: Ino, top: Ino, p: Ino, n: Name, c: Ino)
    requires Shaped(st, root) && Names(st, (p, n), c) && !IsDot(n) && IsDir(st, c)
    ensures c in st.nodes && Walk(st, [".."], c, top) == Ok(if c == top then c else p)
  {
    assert ChildOk(st, (p, n), c, root);
    WalkOne(st, "..", c, top);
    assert Live(st, c);
    assert Names(st, (c, ".."), p);
    assert Live(st, p);
  }

  /** Down to a directory and up again is where one was, wherever that is; only the caller's root holds. */
  lemma DownAndUp(st: Store, root: Ino, top: Ino, path: seq<Name>, n: Name, cur: Ino)
    requires Shaped(st, root) && cur in st.nodes && !IsDot(n) && n != "" && Walk(st, path, cur, top).Ok?
    requires var p := Walk(st, path, cur, top).value;
      Live(st, p) && n in st.nodes[p].entries && IsDir(st, st.nodes[p].entries[n]) && st.nodes[p].entries[n] != top
    ensures Walk(st, path + [n, ".."], cur, top) == Walk(st, path, cur, top)
  {
    hide Shaped;
    var p := Walk(st, path, cur, top).value;
    var c := st.nodes[p].entries[n];
    assert [n, ".."] == [n] + [".."];
    WalkSplits(st, path, [n, ".."], cur, top);
    WalkSplits(st, [n], [".."], p, top);
    WalkOne(st, n, p, top);
    assert Names(st, (p, n), c);
    UpIsParent(st, root, top, p, n, c);
  }

  /** The directory and the name a path to be made or taken denotes: the walk of all but the last name, which is cut
      to fourteen characters; slashes at the end do not count. */
  lemma ParentExact(st: Store, absolute: bool, parts: seq<Name>, n: Name, cwd: Ino, top: Ino)
    requires cwd in st.nodes && top in st.nodes
    ensures WalkParent(st, Path(absolute, []), cwd, top) == Err(16)
    ensures WalkParent(st, Path(absolute, parts + [""]), cwd, top) == WalkParent(st, Path(absolute, parts), cwd, top)
    ensures n != "" ==>
      var r := Walk(st, parts, if absolute then top else cwd, top);
      WalkParent(st, Path(absolute, parts + [n]), cwd, top) ==
        if r.Err? then Err(r.errno)
        else if st.nodes[r.value].kind != Directory then Err(20)
        else if n == "." || n == ".." then Err(22)
        else Ok((r.value, if |n| <= 14 then n else n[..14]))
  {
    hide Walk, Trim;
    TrimmedPaths(parts, n);
    if n != "" {
      assert (parts + [n])[..|parts|] == parts && (parts + [n])[|parts|] == n;
    }
  }

  lemma TrimmedPaths(parts: seq<Name>, n: Name)
    ensures Trim([]) == [] && Trim(parts + [""]) == Trim(parts)
    ensures n != "" ==> Trim(parts + [n]) == parts + [n]
  {
    assert (parts + [""])[..|parts|] == parts && (parts + [n])[|parts|] == n;
  }

  // ---- Making and removing ----------------------------------------------------------------------

  /** All inodes but these are as they were. */
  ghost predicate Untouched(st: Store, st': Store, touched: set<Ino>) {
    forall i :: i in st.nodes && i !in touched ==> i in st'.nodes && st'.nodes[i] == st.nodes[i]
  }

  /** The name has been found, or found to be free, in its directory. */
  predicate At(st: Store, path: Path, cwd: Ino, top: Ino, d: Ino, n: Name, found: Option<Ino>)
    requires cwd in st.nodes && top in st.nodes
  {
    WalkParent(st, path, cwd, top) == Ok((d, n)) && Lookup(st, d, n) == Ok(found)
  }

  /** create and mknod: a new inode with the attributes given, one link, under the name asked for. */
  lemma CreateExact(st: Store, path: Path, node: Node, cwd: Ino, top: Ino, d: Ino, n: Name, found: Option<Ino>)
    requires cwd in st.nodes && top in st.nodes && At(st, path, cwd, top, d, n, found)
    requires node.nlinks == 0 && st.next !in st.nodes
    ensures var (st', r) := Create(st, path, node, cwd, top);
      && (found.Some? ==> r == Err(17) && st' == st)
      && (found.None? && st.next > 0xFFFF ==> r == Err(28) && st' == st.(next := st.next + 1))
      && (found.None? && st.next <= 0xFFFF ==>
            && r == Ok(st.next) && st'.next == st.next + 1
            && st'.nodes.Keys == st.nodes.Keys + {st.next} && st'.nodes[st.next] == node.(nlinks := 1)
            && st'.nodes[d] == st.nodes[d].(entries := st.nodes[d].entries[n := st.next]) && Untouched(st, st', {d}))
  {
    hide WalkParent;
  }

  /** mkdir: a new directory with "." and "..", two links of its own and one more for its parent. */
  lemma MkdirExact(st: Store, path: Path, perm: nat, uid: nat, gid: nat, cwd: Ino, top: Ino, d: Ino, n: Name, found: Option<Ino>)
    requires cwd in st.nodes && top in st.nodes && At(st, path, cwd, top, d, n, found) && st.next !in st.nodes
    ensures var (st', r) := Mkdir(st, path, perm, uid, gid, cwd, top);
      && (found.Some? ==> r == Err(17) && st' == st)
      && (found.None? && st.next > 0xFFFF ==> r == Err(28) && st' == st.(next := st.next + 1))
      && (found.None? && st.next <= 0xFFFF ==>
            && r == Ok(st.next) && st'.next == st.next + 1 && st'.nodes.Keys == st.nodes.Keys + {st.next}
            && st'.nodes[st.next] == Node(Directory, perm, uid, gid, 0, 2, 0, false, [], map["." := st.next, ".." := d])
            && st'.nodes[d] == st.nodes[d].(entries := st.nodes[d].entries[n := st.next], nlinks := st.nodes[d].nlinks + 1)
            && Untouched(st, st', {d}))
  {
    hide WalkParent;
    assert map["." := st.next][".." := d] == map["." := st.next, ".." := d];
  }

  /** unlink: the name goes, the inode loses a link, and is deleted with its last one unless somebody has it open. */
  lemma UnlinkExact(st: Store, path: Path, cwd: Ino, top: Ino, d: Ino, n: Name, found: Option<Ino>)
    requires cwd in st.nodes && top in st.nodes && At(st, path, cwd, top, d, n, found)
    ensures var (st', r) := Unlink(st, path, cwd, top);
      && (found.None? ==> r == Err(2) && st' == st)
      && (found.Some? && st.nodes[found.value].kind == Directory ==> r == Err(21) && st' == st)
      && (found.Some? && st.nodes[found.value].kind != Directory ==>
            var i := found.value;
            var links := Max(st.nodes[i].nlinks - 1, 0);
            && r == Ok(()) && st'.next == st.next && st'.nodes.Keys == st.nodes.Keys && Untouched(st, st', {d, i})
            && st'.nodes[d] == st.nodes[d].(entries := st.nodes[d].entries - {n})
            && st'.nodes[i] == st.nodes[i].(nlinks := links, deleted := st.nodes[i].deleted || (links == 0 && st.nodes[i].openRefs == 0)))
  {
    hide WalkParent;
  }

  /** rmdir: only an empty directory goes, and with it the link its ".." was. */
  lemma RmdirExact(st: Store, path: Path, cwd: Ino, top: Ino, d: Ino, n: Name, found: Option<Ino>)
    requires cwd in st.nodes && top in st.nodes && At(st, path, cwd, top, d, n, found)
    ensures var (st', r) := Rmdir(st, path, cwd, top);
      && (found.None? ==> r == Err(2) && st' == st)
      && (found.Some? && st.nodes[found.value].kind != Directory ==> r == Err(20) && st' == st)
      && (found.Some? && st.nodes[found.value].kind == Directory ==>
            var i := found.value;
            if exists x :: x in st.nodes[i].entries && x != "." && x != ".." then r == Err(39) && st' == st
            else
              && r == Ok(()) && st'.next == st.next && st'.nodes.Keys == st.nodes.Keys && Untouched(st, st', {d, i})
              && (i != d ==> st'.nodes[d] == st.nodes[d].(entries := st.nodes[d].entries - {n}, nlinks := Max(st.nodes[d].nlinks - 1, 0)))
              && (i != d ==> st'.nodes[i] == st.nodes[i].(nlinks := 0, deleted := true)))
  {
    hide WalkParent;
  }

  /** link: a second name for the same inode, one link more. */
  lemma LinkExact(st: Store, oldPath: Path, newPath: Path, cwd: Ino, top: Ino, i: Ino, d: Ino, n: Name, found: Option<Ino>)
    requires cwd in st.nodes && top in st.nodes && At(st, newPath, cwd, top, d, n, found)
    requires Walk(st, oldPath.parts, if oldPath.absolute then top else cwd, top) == Ok(i)
    ensures var (st', r) := Link(st, oldPath, newPath, cwd, top);
      && (st.nodes[i].kind == Directory ==> r == Err(1) && st' == st)
      && (st.nodes[i].kind != Directory && found.Some? ==> r == Err(17) && st' == st)
      && (st.nodes[i].kind != Directory && found.None? ==>
            && r == Ok(()) && st'.next == st.next && st'.nodes.Keys == st.nodes.Keys && Untouched(st, st', {d, i})
            && st'.nodes[d] == st.nodes[d].(entries := st.nodes[d].entries[n := i])
            && st'.nodes[i] == st.nodes[i].(nlinks := st.nodes[i].nlinks + 1))
  {
    hide WalkParent, Walk;
  }

  // ---- rename ---------------------------------------------------------------------------------------

  /** Whatever happens to names and links, every inode keeps its kind, owner, permissions and contents. */
  ghost predicate SameAttributes(st: Store, st': Store) {
    && st'.nodes.Keys == st.nodes.Keys && st'.next == st.next
    && forall i :: i in st.nodes ==> Relinked(st.nodes[i], st'.nodes[i])
  }

  predicate Relinked(n: Node, n': Node) {
    n' == n.(nlinks := n'.nlinks, deleted := n'.deleted, entries := n'.entries)
  }

  lemma Reflexive(st: Store)
    ensures SameAttributes(st, st)
  {
  }

  lemma Chained(a: Store, b: Store, c: Store)
    requires SameAttributes(a, b) && SameAttributes(b, c)
    ensures SameAttributes(a, c)
  {
  }

  lemma SmallSteps(st: Store, d: Ino, n: Name, i: Ino, k: int)
    requires d in st.nodes && i in st.nodes
    ensures SameAttributes(st, LinkEntry(st, d, n, i)) && SameAttributes(st, SetEntry(st, d, n, i))
    ensures SameAttributes(st, AddLinks(st, i, k)) && SameAttributes(st, DropLink(st, i))
  {
  }

  lemma UnlinkAttributes(st: Store, d: Ino, n: Name)
    requires d in st.nodes && n in st.nodes[d].entries && st.nodes[d].entries[n] in st.nodes
    ensures SameAttributes(st, UnlinkEntry(st, d, n))
  {
  }

  lemma ReparentAttributes(st: Store, v: Ino, from: Ino, to: Ino)
    requires v in st.nodes && from in st.nodes && to in st.nodes
    ensures SameAttributes(st, Reparent(st, v, from, to))
  {
    hide SetEntry, AddLinks, DropLink, Relinked;
    var st1 := SetEntry(st, v, "..", to);
    SmallSteps(st, v, "..", to, 1);
    SmallSteps(st1, to, "..", to, 1);
    var st2 := AddLinks(st1, to, 1);
    SmallSteps(st2, from, "..", from, 1);
    Chained(st, st1, st2);
    Chained(st, st2, DropLink(st2, from));
  }

  lemma MoveAttributes(st: Store, op: Place, np: Place, v: Ino)
    ensures SameAttributes(st, RenameOver(st, op.0, op.1, np.0, np.1, v).0)
  {
    hide LinkEntry, UnlinkEntry, Reparent, Relinked, Move;
    Reflexive(st);
    if RenameOver(st, op.0, op.1, np.0, np.1, v).1.Ok? {
      var st1 := LinkEntry(st, np.0, np.1, v);
      SmallSteps(st, np.0, np.1, v, 1);
      MoveSteps(st, op, np, v);
      UnlinkAttributes(st1, op.0, op.1);
      var st2 := UnlinkEntry(st1, op.0, op.1);
      Chained(st, st1, st2);
      ReparentAttributes(st2, v, op.0, np.0);
      Chained(st, st2, Reparent(st2, v, op.0, np.0));
    }
  }

  lemma MoveSteps(st: Store, op: Place, np: Place, v: Ino)
    requires op.0 in st.nodes && np.0 in st.nodes && v in st.nodes && op != np
    requires op.1 in st.nodes[op.0].entries && st.nodes[op.0].entries[op.1] == v
    ensures var st1 := LinkEntry(st, np.0, np.1, v);
      && op.0 in st1.nodes && op.1 in st1.nodes[op.0].entries && st1.nodes[op.0].entries[op.1] == v && v in st1.nodes
      && var st2 := UnlinkEntry(st1, op.0, op.1);
         Move(st, op.0, op.1, np.0, np.1, v) == if IsDir(st, v) && op.0 != np.0 then Reparent(st2, v, op.0, np.0) else st2
  {
  }

  lemma DisplaceAttributes(st: Store, d: Ino, n: Name)
    requires d in st.nodes && n in st.nodes[d].entries && st.nodes[d].entries[n] in st.nodes
    ensures SameAttributes(st, Displace(st, d, n).0)
  {
    hide UnlinkEntry, Relinked, DropLink;
    Reflexive(st);
    UnlinkAttributes(st, d, n);
    var v, st1 := st.nodes[d].entries[n], UnlinkEntry(st, d, n);
    SmallSteps(st1, d, n, d, 1);
    var st2 := DropLink(st1, d);
    Chained(st, st1, st2);
    MarkedAttributes(st2, v);
    Chained(st, st2, Put(st2, v, st2.nodes[v].(nlinks := 0, deleted := true)));
  }

  lemma MarkedAttributes(st: Store, v: Ino)
    requires v in st.nodes
    ensures SameAttributes(st, Put(st, v, st.nodes[v].(nlinks := 0, deleted := true)))
  {
  }

  /** The names after v has moved from op to the free place np. */
  ghost predicate MovedNames(st: Store, st': Store, op: Place, np: Place, v: Ino) {
    forall q: Place, i :: Names(st', q, i) <==>
      if q == np then i == v
      else if q == op then false
      else if q == (v, "..") && IsDir(st, v) then i == np.0
      else Names(st, q, i)
  }

  lemma MoveNames(st: Store, op: Place, np: Place, v: Ino, root: Ino)
    requires Linked(st, root) && Names(st, op, v) && v in st.nodes && !IsDot(op.1) && !IsDot(np.1)
    requires Live(st, np.0) && np.1 !in st.nodes[np.0].entries && op != np
    ensures RenameOver(st, op.0, op.1, np.0, np.1, v).1.Ok?
    ensures MovedNames(st, RenameOver(st, op.0, op.1, np.0, np.1, v).0, op, np, v)
  {
    hide Linked, Names, Live, IsDot, LinkEntry, UnlinkEntry, Off, Move, IsDir;
    RenameOverLinked(st, op, np, v, root);
    EntryOf(st, op, v);
    LiveIsDir(st, np.0);
    if IsDir(st, v) {
      MoveDirLinked(st, op, np, v, root);
    } else {
      OffZero(st, root, v);
      NamedCounts(st, op, v);
      LinkNames(st, np, v);
      var st1 := LinkEntry(st, np.0, np.1, v);
      EntryOf(st1, op, v);
      UnlinkNames(st1, op, v);
      FileMoveSteps(st, op, np, v);
    }
  }

  lemma FileMoveSteps(st: Store, op: Place, np: Place, v: Ino)
    requires op.0 in st.nodes && np.0 in st.nodes && v in st.nodes && op != np && !IsDir(st, v)
    requires op.1 in st.nodes[op.0].entries && st.nodes[op.0].entries[op.1] == v
    ensures var st1 := LinkEntry(st, np.0, np.1, v);
      && op.1 in st1.nodes[op.0].entries && st1.nodes[op.0].entries[op.1] == v
      && Move(st, op.0, op.1, np.0, np.1, v) == UnlinkEntry(st1, op.0, op.1)
  {
  }

  /** rename: the new name leads to the inode, the old one is gone, the ".." of a directory leads to its new parent,
      and all other names lead where they did, except that what stood in the way is gone: a file's name, or an empty
      directory with its two names. A directory that is not empty is not displaced, and two names of one inode are
      left alone. No inode changes in anything but names and links. */
  lemma RenameExact(st: Store, oldPath: Path, newPath: Path, cwd: Ino, top: Ino, root: Ino, op: Place, np: Place, v: Ino, found: Option<Ino>)
    requires Linked(st, root) && InLive(st, oldPath, cwd, top) && InLive(st, newPath, cwd, top)
    requires At(st, oldPath, cwd, top, op.0, op.1, Some(v)) && At(st, newPath, cwd, top, np.0, np.1, found)
    ensures var (st', r) := Rename(st, oldPath, newPath, cwd, top);
      && SameAttributes(st, st')
      && (found == Some(v) ==> r.Ok? && st' == st)
      && (found.None? ==> r.Ok? && MovedNames(st, st', op, np, v))
      && (found.Some? && found.value != v ==>
            var x := found.value;
            if IsDir(st, x) && exists n :: n in st.nodes[x].entries && n != "." && n != ".." then r == Err(39) && st' == st
            else r.Ok? && forall q: Place, i :: Names(st', q, i) <==>
              if q == np then i == v
              else if q == op || (IsDir(st, x) && q.0 == x) then false
              else if q == (v, "..") && IsDir(st, v) then i == np.0
              else Names(st, q, i))
  {
    hide Linked, Shaped, Off, RenameOver, Displace, WalkParent, InLive;
    LinkedShape(st, root);
    PlaceLive(st, oldPath, cwd, top);
    PlaceLive(st, newPath, cwd, top);
    assert Names(st, op, v);
    if found.None? {
      MoveNames(st, op, np, v, root);
      MoveAttributes(st, op, np, v);
    } else if found.value != v {
      OverTaken(st, op, np, v, found.value, root);
      DisplaceAttributes(st, np.0, np.1);
      MoveAttributes(Displace(st, np.0, np.1).0, op, np, v);
    }
  }

  lemma PlaceLive(st: Store, path: Path, cwd: Ino, top: Ino)
    requires InLive(st, path, cwd, top) && WalkParent(st, path, cwd, top).Ok?
    ensures Live(st, WalkParent(st, path, cwd, top).value.0) && !IsDot(WalkParent(st, path, cwd, top).value.1)
  {
    hide Walk;
  }

  lemma OverTaken(st: Store, op: Place, np: Place, v: Ino, x: Ino, root: Ino)
    requires Linked(st, root) && Names(st, op, v) && v in st.nodes && Names(st, np, x) && x in st.nodes && x != v
    requires !IsDot(op.1) && !IsDot(np.1)
    ensures np.0 in st.nodes && np.1 in st.nodes[np.0].entries && st.nodes[np.0].entries[np.1] == x
    ensures var (st1, r) := Displace(st, np.0, np.1);
      if IsDir(st, x) && exists n :: n in st.nodes[x].entries && n != "." && n != ".." then r == Err(39) && st1 == st
      else
        var (st', r') := RenameOver(st1, op.0, op.1, np.0, np.1, v);
        r.Ok? && r'.Ok? && forall q: Place, i :: Names(st', q, i) <==>
          if q == np then i == v
          else if q == op || (IsDir(st, x) && q.0 == x) then false
          else if q == (v, "..") && IsDir(st, v) then i == np.0
          else Names(st, q, i)
  {
    hide Linked, Shaped, Off, RenameOver, RemoveDir, UnlinkEntry, Live, Names, IsDir, OnlyDots;
    EntryOf(st, np, x);
    LinkedShape(st, root);
    if IsDir(st, x) { DisplacedDir(st, np, x, root); } else { DisplacedFile(st, np, x); }
    var (st1, r) := Displace(st, np.0, np.1);
    if r.Ok? {
      DisplaceLinked(st, np, x, root);
      DisplaceLeaves(st, op, np, x, v, root);
      MoveNames(st1, op, np, v, root);
      SameKind(st, np.0, np.1, v);
      if IsDir(st, x) && IsDir(st, v) { OneName(st, np, x, v); }
    }
  }

  lemma SameKind(st: Store, d: Ino, n: Name, v: Ino)
    requires d in st.nodes && n in st.nodes[d].entries && st.nodes[d].entries[n] in st.nodes
    ensures IsDir(Displace(st, d, n).0, v) <==> IsDir(st, v)
  {
  }

  lemma DisplacedDir(st: Store, np: Place, x: Ino, root: Ino)
    requires Linked(st, root) && Names(st, np, x) && x in st.nodes && IsDir(st, x) && !IsDot(np.1)
    ensures np.0 in st.nodes && np.1 in st.nodes[np.0].entries && st.nodes[np.0].entries[np.1] == x
    ensures var (st1, r) := Displace(st, np.0, np.1);
      && (r.Err? <==> exists n :: n in st.nodes[x].entries && n != "." && n != "..")
      && (r.Err? ==> r == Err(39) && st1 == st)
      && (r.Ok? ==> forall q: Place, i :: Names(st1, q, i) <==> Names(st, q, i) && q != np && q.0 != x)
  {
    hide Linked, Shaped, Off, RemoveDir;
    EntryOf(st, np, x);
    LinkedShape(st, root);
    if IsEmptyDir(st.nodes[x]) {
      DotsOnly(st, x);
      RemovedFacts(st, np, x, root);
      OffZero(st, root, x);
      TwoNamesCount(st, np, (x, "."), x);
      RemoveDirNames(st, np.0, np.1, x);
    }
  }

  lemma DisplacedFile(st: Store, np: Place, x: Ino)
    requires Names(st, np, x) && x in st.nodes && !IsDir(st, x)
    ensures np.0 in st.nodes && np.1 in st.nodes[np.0].entries && st.nodes[np.0].entries[np.1] == x
    ensures var (st1, r) := Displace(st, np.0, np.1);
      r.Ok? && forall q: Place, i :: Names(st1, q, i) <==> Names(st, q, i) && q != np
  {
    hide UnlinkEntry, Names, Live;
    EntryOf(st, np, x);
    UnlinkFileNames(st, np, x);
  }

  // ---- Contents ------------------------------------------------------------------------------------

  /** A read gives the bytes from the offset on, as many as asked for or as there are. */
  lemma ReadExact(st: Store, i: Ino, offset: nat, length: nat)
    requires i in st.nodes
    ensures var r, data := Read(st, i, offset, length), st.nodes[i].data;
      && |r| == Max(0, Min(length, |data| - offset)) && forall k :: 0 <= k < |r| ==> r[k] == data[offset + k]
  {
  }

  /** A write changes one file: afterwards a byte is the one written, the old one, or zero in a gap. */
  lemma WriteExact(st: Store, i: Ino, offset: nat, data: seq<Byte>)
    requires i in st.nodes
    ensures var (st', r) := Write(st, i, offset, data);
      && (st.nodes[i].kind == Directory ==> r == Err(21) && st' == st)
      && (st.nodes[i].kind != Directory ==>
            var was, now := st.nodes[i].data, st'.nodes[i].data;
            && r == Ok(|data|) && st' == st.(nodes := st.nodes[i := st.nodes[i].(data := now)])
            && |now| == Max(|was|, offset + |data|)
            && forall k :: 0 <= k < |now| ==>
                 now[k] == if offset <= k < offset + |data| then data[k - offset] else if k < |was| then was[k] else 0)
  {
    if st.nodes[i].kind != Directory {
      var now := Splice(st.nodes[i].data, offset, data);
      forall k | 0 <= k < |now|
        ensures now[k] == if offset <= k < offset + |data| then data[k - offset] else if k < |st.nodes[i].data| then st.nodes[i].data[k] else 0
      {
        ReadAfterWrite(st.nodes[i].data, offset, data, k);
      }
    }
  }

  /** Truncation sets the size: bytes below it are the old ones, and zeros behind the old end. */
  lemma TruncateExact(st: Store, i: Ino, size: nat)
    requires i in st.nodes
    ensures var (st', r) := Truncate(st, i, size);
      && (st.nodes[i].kind == Directory ==> r == Err(21) && st' == st)
      && (st.nodes[i].kind != Directory ==>
            var was, now := st.nodes[i].data, st'.nodes[i].data;
            && r == Ok(()) && st' == st.(nodes := st.nodes[i := st.nodes[i].(data := now)])
            && |now| == size && forall k :: 0 <= k < size ==> now[k] == if k < |was| then was[k] else 0)
  {
  }

  // ---- Open files ------------------------------------------------------------------------------

  /** Opening and closing count on the inode, which closing cannot bring below zero, and change nothing else. */
  lemma OpenCloseExact(st: Store, i: Ino)
    requires i in st.nodes && st.nodes[i].openRefs >= 0
    ensures OnNode(st, Opened(i)) == (st.(nodes := st.nodes[i := st.nodes[i].(openRefs := st.nodes[i].openRefs + 1)]), Ok(0))
    ensures var n := st.nodes[i].openRefs;
      OnNode(st, Closed(i)) == (st.(nodes := st.nodes[i := st.nodes[i].(openRefs := if n == 0 then 0 else n - 1)]), Ok(0))
  {
  }

  lemma NoSuchInode(st: Store, i: Ino)
    requires i !in st.nodes
    ensures OnNode(st, Opened(i)) == (st, Err(ENOENT)) && OnNode(st, Closed(i)) == (st, Err(ENOENT))
  {
  }

  // ---- Operations as they are issued ------------------------------------------------------------

  /** What the caller is told of an operation without a result of its own. */
  function Told(r: (Store, Outcome<()>)): (Store, Reply) {
    (r.0, if r.1.Ok? then Ok(0) else Err(r.1.errno))
  }

  /** Which operation each request is. */
  lemma PerformExact(st: Store, cwd: Ino, top: Ino, p: Path, q: Path, i: Ino, n: nat, node: Node, data: seq<Byte>)
    requires cwd in st.nodes && top in st.nodes
    ensures Perform(st, Issued(MakeNode(p, node), cwd, top)) == Create(st, p, node, cwd, top)
    ensures Perform(st, Issued(MakeDir(p, n, i, n), cwd, top)) == Mkdir(st, p, n, i, n, cwd, top)
    ensures Perform(st, Issued(RemoveDirectory(p), cwd, top)) == Told(Rmdir(st, p, cwd, top))
    ensures Perform(st, Issued(Remove(p), cwd, top)) == Told(Unlink(st, p, cwd, top))
    ensures Perform(st, Issued(HardLink(p, q), cwd, top)) == Told(Link(st, p, q, cwd, top))
    ensures Perform(st, Issued(Relocate(p, q), cwd, top)) == Told(Rename(st, p, q, cwd, top))
    ensures i in st.nodes ==> Perform(st, Issued(Contents(i, n, data), cwd, top)) == Write(st, i, n, data)
    ensures i in st.nodes ==> Perform(st, Issued(Resize(i, n), cwd, top)) == Told(Truncate(st, i, n))
  {
    hide Create, Mkdir, Rmdir, Unlink, Link, Rename, Write, Truncate;
  }
}
