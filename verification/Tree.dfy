/** Which operations of the file layer keep the directories a tree: all but a rename of a directory below itself,
    which the source does not refuse. */
module Tree {
  import opened Words
  import opened PlainStore
  import opened LinkCounts

  // ---- Paths of ordinary entries -----------------------------------------------------------

  /** The names lead from directory a to d through ordinary entries of directories that have not been removed. */
  predicate Leads(st: Store, a: Ino, names: seq<Name>, d: Ino)
    decreases |names|
  {
    if |names| == 0 then a == d
    else
      && Live(st, a) && !IsDot(names[0]) && names[0] in st.nodes[a].entries
      && Leads(st, st.nodes[a].entries[names[0]], names[1..], d)
  }

  ghost predicate Reaches(st: Store, a: Ino, d: Ino) {
    exists names :: Leads(st, a, names, d)
  }

  /** Every directory that has not been removed is reached from the root. */
  ghost predicate Connected(st: Store, root: Ino) {
    forall d :: Live(st, d) ==> Reaches(st, root, d)
  }

  lemma Itself(st: Store, a: Ino)
    ensures Reaches(st, a, a)
  {
    assert Leads(st, a, [], a);
  }

  lemma FirstStep(st: Store, a: Ino, names: seq<Name>, d: Ino)
    requires |names| > 0
    ensures Leads(st, a, names, d) <==>
      exists c :: Names(st, (a, names[0]), c) && !IsDot(names[0]) && Leads(st, c, names[1..], d)
  {
    if Leads(st, a, names, d) { assert Names(st, (a, names[0]), st.nodes[a].entries[names[0]]); }
  }

  lemma {:induction false} Joined(st: Store, a: Ino, p: seq<Name>, b: Ino, q: seq<Name>, d: Ino)
    requires Leads(st, a, p, b) && Leads(st, b, q, d)
    ensures Leads(st, a, p + q, d)
    decreases |p|
  {
    if |p| == 0 { assert p + q == q; }
    else {
      Joined(st, st.nodes[a].entries[p[0]], p[1..], b, q, d);
      assert (p + q)[1..] == p[1..] + q;
    }
  }

  /** One more entry at the end. */
  lemma Extended(st: Store, a: Ino, p: seq<Name>, e: Place, d: Ino)
    requires Leads(st, a, p, e.0) && Names(st, e, d) && !IsDot(e.1)
    ensures Leads(st, a, p + [e.1], d)
  {
    assert Leads(st, d, [e.1][1..], d);
    assert Leads(st, e.0, [e.1], d);
    Joined(st, a, p, e.0, [e.1], d);
  }

  /** The last entry of a path. */
  lemma {:induction false} LastStep(st: Store, a: Ino, p: seq<Name>, d: Ino) returns (e: Ino)
    requires Leads(st, a, p, d) && |p| > 0
    ensures Leads(st, a, p[..|p| - 1], e) && Names(st, (e, p[|p| - 1]), d) && !IsDot(p[|p| - 1])
    decreases |p|
  {
    var c := st.nodes[a].entries[p[0]];
    if |p| == 1 {
      e := a;
    } else {
      e := LastStep(st, c, p[1..], d);
      assert p[1..][..|p| - 2] == p[..|p| - 1][1..];
    }
  }

  // ---- A connected store is a tree ------------------------------------------------------------

  /** In a well-shaped store there is at most one path from the root to a directory. */
  lemma {:induction false} OnePath(st: Store, root: Ino, p: seq<Name>, q: seq<Name>, d: Ino)
    requires Shaped(st, root) && Leads(st, root, p, d) && Leads(st, root, q, d) && IsDir(st, d)
    ensures p == q
    decreases |p|
  {
    hide Shaped, Leads, Names;
    if |p| > 0 && |q| > 0 {
      var e := LastStep(st, root, p, d);
      var f := LastStep(st, root, q, d);
      OneDirName(st, root, (e, p[|p| - 1]), (f, q[|q| - 1]), d);
      NamerIsLive(st, (e, p[|p| - 1]), d);
      LiveIsDir(st, e);
      OnePath(st, root, p[..|p| - 1], q[..|q| - 1], e);
      assert p == p[..|p| - 1] + [p[|p| - 1]] && q == q[..|q| - 1] + [q[|q| - 1]];
    } else if |p| > 0 {
      EmptyLeads(st, root, q, d);
      RootUnnamed(st, root, p);
    } else if |q| > 0 {
      EmptyLeads(st, root, p, d);
      RootUnnamed(st, root, q);
    }
  }

  lemma EmptyLeads(st: Store, a: Ino, p: seq<Name>, d: Ino)
    requires Leads(st, a, p, d) && p == []
    ensures a == d
  {
  }

  lemma RootUnnamed(st: Store, root: Ino, p: seq<Name>)
    requires Shaped(st, root) && |p| > 0
    ensures !Leads(st, root, p, root)
  {
    hide Leads, Shaped;
    if Leads(st, root, p, root) {
      var e := LastStep(st, root, p, root);
      RootHasNoName(st, root, (e, p[|p| - 1]));
    }
  }

  lemma RootHasNoName(st: Store, root: Ino, q: Place)
    requires Shaped(st, root) && !IsDot(q.1)
    ensures !Names(st, q, root)
  {
    assert ChildOk(st, q, root, root);
  }

  lemma OneDirName(st: Store, root: Ino, p: Place, q: Place, d: Ino)
    requires Shaped(st, root) && Names(st, p, d) && Names(st, q, d) && !IsDot(p.1) && !IsDot(q.1) && IsDir(st, d)
    ensures p == q && Live(st, d) && d != root
  {
    assert ChildOk(st, p, d, root);
  }

  /** A directory the root reaches is not below itself. */
  lemma NoLoop(st: Store, root: Ino, d: Ino, p: seq<Name>)
    requires Shaped(st, root) && Reaches(st, root, d) && IsDir(st, d) && |p| > 0
    ensures !Leads(st, d, p, d)
  {
    hide Shaped, Leads;
    if Leads(st, d, p, d) {
      var q :| Leads(st, root, q, d);
      Joined(st, root, q, d, p, d);
      OnePath(st, root, q, q + p, d);
    }
  }

  // ---- Operations that take no entry of a directory still in use ----------------------------------

  /** Every ordinary entry for what is a directory afterwards stays. */
  ghost predicate KeepsDirNames(st: Store, st': Store) {
    forall q: Place, i :: Names(st, q, i) && !IsDot(q.1) && Live(st', i) ==> Names(st', q, i)
  }

  lemma {:induction false} PathKept(st: Store, st': Store, a: Ino, p: seq<Name>, d: Ino)
    requires KeepsDirNames(st, st') && Leads(st, a, p, d) && Live(st', d)
    ensures Leads(st', a, p, d)
    decreases |p|
  {
    hide Names, Live;
    if |p| > 0 {
      var e := LastStep(st, a, p, d);
      NamerIsLive(st', (e, p[|p| - 1]), d);
      PathKept(st, st', a, p[..|p| - 1], e);
      Extended(st', a, p[..|p| - 1], (e, p[|p| - 1]), d);
      assert p == p[..|p| - 1] + [p[|p| - 1]];
    }
  }

  lemma ConnectedKept(st: Store, st': Store, root: Ino)
    requires Connected(st, root) && KeepsDirNames(st, st') && forall d :: Live(st', d) ==> Live(st, d)
    ensures Connected(st', root)
  {
    hide KeepsDirNames, Live;
    forall d | Live(st', d) ensures Reaches(st', root, d) {
      var p :| Leads(st, root, p, d);
      PathKept(st, st', root, p, d);
    }
  }

  // ---- A directory moves ------------------------------------------------------------------------------

  /** What a move of directory v from place op to the free place np does to names. */
  ghost predicate Moved(st: Store, st': Store, op: Place, np: Place, v: Ino) {
    && (forall d :: Live(st', d) <==> Live(st, d))
    && (forall q: Place, i :: Names(st', q, i) <==>
         if q == np then i == v else if q == op then false
         else if q == (v, "..") then Names(st', q, i) else Names(st, q, i))
  }

  /** A path of the old store either still stands or has a rest below v that does. */
  lemma {:induction false} PathOrRest(st: Store, st': Store, op: Place, np: Place, v: Ino, a: Ino, p: seq<Name>, d: Ino)
    returns (rest: seq<Name>)
    requires Moved(st, st', op, np, v) && Names(st, op, v) && (forall i :: !Names(st, np, i)) && Leads(st, a, p, d)
    ensures Leads(st', a, p, d) || (Leads(st, v, rest, d) && Leads(st', v, rest, d))
    decreases |p|
  {
    hide Live;
    rest := [];
    if |p| > 0 {
      FirstStep(st, a, p, d);
      var c :| Names(st, (a, p[0]), c) && !IsDot(p[0]) && Leads(st, c, p[1..], d);
      rest := PathOrRest(st, st', op, np, v, c, p[1..], d);
      if Leads(st', c, p[1..], d) {
        if (a, p[0]) == op { OneName(st, op, v, c); rest := p[1..]; }
        else {
          assert Names(st', (a, p[0]), c);
          FirstStep(st', a, p, d);
        }
      }
    }
  }

  /** Nothing outside v's part of the old store leads into it any more, if the new place is in that part. */
  lemma {:induction false} PathOutside(st: Store, st': Store, root: Ino, op: Place, np: Place, v: Ino, a: Ino, p: seq<Name>, d: Ino)
    requires Shaped(st, root) && Moved(st, st', op, np, v) && Names(st, op, v) && !IsDot(op.1) && IsDir(st, v)
    requires Reaches(st, v, np.0) && !Reaches(st, v, a) && Leads(st', a, p, d) && Live(st, d)
    ensures !Reaches(st, v, d)
    decreases |p|
  {
    hide Shaped, Live, Leads, Names;
    if |p| > 0 {
      var e := LastStep(st', a, p, d);
      NamerIsLive(st', (e, p[|p| - 1]), d);
      PathOutside(st, st', root, op, np, v, a, p[..|p| - 1], e);
      if Reaches(st, v, d) { EntryInto(st, st', root, op, np, v, (e, p[|p| - 1]), d); }
    } else {
      EmptyLeads(st', a, p, d);
    }
  }

  lemma EntryInto(st: Store, st': Store, root: Ino, op: Place, np: Place, v: Ino, q: Place, d: Ino)
    requires Shaped(st, root) && Moved(st, st', op, np, v) && Names(st, op, v) && !IsDot(op.1) && IsDir(st, v)
    requires Reaches(st, v, np.0) && Names(st', q, d) && !IsDot(q.1) && Live(st, d) && Reaches(st, v, d)
    ensures Reaches(st, v, q.0)
  {
    hide Shaped, Leads, Names;
    if q != np {
      LiveIsDir(st, d);
      var w :| Leads(st, v, w, d);
      if |w| == 0 {
        EmptyLeads(st, v, w, d);
        OneDirName(st, root, op, q, v);
      } else {
        var e := LastStep(st, v, w, d);
        OneDirName(st, root, q, (e, w[|w| - 1]), d);
      }
    }
  }

  /** The root is not below a directory that has a name. */
  lemma RootNotBelow(st: Store, root: Ino, op: Place, v: Ino)
    requires Shaped(st, root) && Names(st, op, v) && !IsDot(op.1) && IsDir(st, v)
    ensures !Reaches(st, v, root)
  {
    hide Leads, Shaped;
    OneDirName(st, root, op, op, v);
    if p :| Leads(st, v, p, root) {
      if |p| == 0 { EmptyLeads(st, v, p, root); }
      else {
        var e := LastStep(st, v, p, root);
        RootHasNoName(st, root, (e, p[|p| - 1]));
      }
    }
  }

  /** After a directory has moved in a connected store, the store is connected if and only if the new place is not
      in the directory itself or below it; else exactly the directories at and below it are lost. */
  lemma MoveConnected(st: Store, st': Store, root: Ino, op: Place, np: Place, v: Ino)
    requires Shaped(st, root) && Connected(st, root) && Moved(st, st', op, np, v)
    requires Names(st, op, v) && !IsDot(op.1) && !IsDot(np.1) && IsDir(st, v) && Live(st, np.0) && forall i :: !Names(st, np, i)
    ensures !Reaches(st, v, np.0) ==> Connected(st', root)
    ensures Reaches(st, v, np.0) ==> forall d :: Live(st', d) ==> (Reaches(st', root, d) <==> !Reaches(st, v, d))
    ensures Connected(st', root) <==> !Reaches(st, v, np.0)
  {
    hide Shaped, Leads, Names, Live, Moved;
    OneDirName(st, root, op, op, v);
    MovedLive(st, st', op, np, v);
    if Reaches(st, v, np.0) {
      RootNotBelow(st, root, op, v);
      Itself(st, v);
      forall d | Live(st', d) ensures Reaches(st', root, d) <==> !Reaches(st, v, d) {
        if p :| Leads(st', root, p, d) { PathOutside(st, st', root, op, np, v, root, p, d); }
        if !Reaches(st, v, d) { OutsideKept(st, st', root, op, np, v, d); }
      }
    } else {
      OutsideKept(st, st', root, op, np, v, np.0);
      forall d | Live(st', d) ensures Reaches(st', root, d) { BelowKept(st, st', root, op, np, v, d); }
    }
  }

  lemma MovedLive(st: Store, st': Store, op: Place, np: Place, v: Ino)
    requires Moved(st, st', op, np, v)
    ensures (forall d :: Live(st', d) <==> Live(st, d)) && Names(st', np, v)
  {
  }

  lemma OutsideKept(st: Store, st': Store, root: Ino, op: Place, np: Place, v: Ino, d: Ino)
    requires Connected(st, root) && Moved(st, st', op, np, v) && Names(st, op, v) && (forall i :: !Names(st, np, i))
    requires Live(st, d) && !Reaches(st, v, d)
    ensures Reaches(st', root, d)
  {
    hide Leads, Names, Live, Moved;
    var p :| Leads(st, root, p, d);
    var rest := PathOrRest(st, st', op, np, v, root, p, d);
  }

  lemma BelowKept(st: Store, st': Store, root: Ino, op: Place, np: Place, v: Ino, d: Ino)
    requires Connected(st, root) && Moved(st, st', op, np, v) && Names(st, op, v) && (forall i :: !Names(st, np, i))
    requires Live(st, d) && !IsDot(np.1) && Reaches(st', root, np.0)
    ensures Reaches(st', root, d)
  {
    hide Leads, Names, Live, Moved;
    var p :| Leads(st, root, p, d);
    var rest := PathOrRest(st, st', op, np, v, root, p, d);
    if !Leads(st', root, p, d) {
      MovedLive(st, st', op, np, v);
      var q :| Leads(st', root, q, np.0);
      Extended(st', root, q, np, v);
      Joined(st', root, q + [np.1], v, rest, d);
    }
  }

  // ---- The operations -------------------------------------------------------------------------------

  lemma CreateConnected(st: Store, path: Path, n: Node, cwd: Ino, top: Ino, root: Ino)
    requires Linked(st, root) && Connected(st, root) && InLive(st, path, cwd, top)
    requires n.kind != Directory && n.nlinks == 0 && n.entries == map[] && !n.deleted
    ensures Connected(Create(st, path, n, cwd, top).0, root)
  {
    hide Connected, Linked, WalkParent;
    LinkedShape(st, root);
    NumbersBelow(st, root);
    ConnectedKept(st, Create(st, path, n, cwd, top).0, root);
  }

  lemma LinkConnected(st: Store, oldPath: Path, newPath: Path, cwd: Ino, top: Ino, root: Ino)
    requires Connected(st, root) && InLive(st, newPath, cwd, top)
    ensures Connected(Link(st, oldPath, newPath, cwd, top).0, root)
  {
    hide Connected, WalkParent, Walk;
    ConnectedKept(st, Link(st, oldPath, newPath, cwd, top).0, root);
  }

  lemma FileEntryGone(st: Store, p: Place, v: Ino, root: Ino)
    requires Connected(st, root) && Names(st, p, v) && v in st.nodes && !IsDir(st, v)
    ensures Connected(UnlinkEntry(st, p.0, p.1), root) && KeepsDirNames(st, UnlinkEntry(st, p.0, p.1))
  {
    hide Connected, Names, UnlinkEntry;
    EntryOf(st, p, v);
    UnlinkFileNames(st, p, v);
    var st' := UnlinkEntry(st, p.0, p.1);
    forall q: Place, i | Names(st, q, i) && !IsDot(q.1) && Live(st', i) ensures Names(st', q, i) {
      if q == p { OneName(st, p, v, i); }
    }
    ConnectedKept(st, st', root);
  }

  lemma UnlinkConnected(st: Store, path: Path, cwd: Ino, top: Ino, root: Ino)
    requires Connected(st, root) && InLive(st, path, cwd, top)
    ensures Connected(Unlink(st, path, cwd, top).0, root)
  {
    hide Connected, WalkParent, UnlinkEntry;
    var w := WalkParent(st, path, cwd, top);
    if w.Ok? {
      var l := Lookup(st, w.value.0, w.value.1);
      if l.Ok? && l.value.Some? && !IsDir(st, l.value.value) {
        FileEntryGone(st, w.value, l.value.value, root);
      }
    }
  }

  /** An empty directory was on no path but its own. */
  lemma EmptyDirGone(st: Store, p: Place, v: Ino, root: Ino)
    requires Linked(st, root) && Connected(st, root) && Names(st, p, v) && !IsDot(p.1) && IsDir(st, v) && v in st.nodes
    requires OnlyDots(st, v) && p.0 in st.nodes && p.1 in st.nodes[p.0].entries && st.nodes[p.0].entries[p.1] == v
    ensures var st' := RemoveDir(st, p.0, p.1, v);
      && Connected(st', root) && KeepsDirNames(st, st')
      && (forall q: Place, i :: Names(st', q, i) ==> Names(st, q, i)) && (forall i :: Live(st', i) ==> Live(st, i))
  {
    hide Connected, Linked, Shaped, Names, Live, RemoveDir, Off;
    LinkedShape(st, root);
    RemovedFacts(st, p, v, root);
    OffZero(st, root, v);
    TwoNamesCount(st, p, (v, "."), v);
    RemoveDirNames(st, p.0, p.1, v);
    var st' := RemoveDir(st, p.0, p.1, v);
    forall q: Place, i | Names(st, q, i) && !IsDot(q.1) && Live(st', i) ensures Names(st', q, i) {
      if q == p { OneName(st, p, v, i); }
    }
    ConnectedKept(st, st', root);
  }

  lemma RmdirAtConnected(st: Store, p: Place, root: Ino)
    requires Linked(st, root) && Connected(st, root) && Live(st, p.0) && !IsDot(p.1)
    ensures p.0 in st.nodes
    ensures var st' := RmdirAt(st, p.0, p.1).0;
      && Connected(st', root) && KeepsDirNames(st, st')
      && (forall q: Place, i :: Names(st', q, i) ==> Names(st, q, i)) && (forall i :: Live(st', i) ==> Live(st, i))
  {
    hide Connected, Linked, RemoveDir;
    var l := Lookup(st, p.0, p.1);
    if l.Ok? && l.value.Some? && IsDir(st, l.value.value) && IsEmptyDir(st.nodes[l.value.value]) {
      DotsOnly(st, l.value.value);
      EmptyDirGone(st, p, l.value.value, root);
    }
  }

  lemma RmdirConnected(st: Store, path: Path, cwd: Ino, top: Ino, root: Ino)
    requires Linked(st, root) && Connected(st, root) && InLive(st, path, cwd, top)
    ensures Connected(Rmdir(st, path, cwd, top).0, root)
  {
    hide Connected, Linked, WalkParent, RmdirAt;
    var w := WalkParent(st, path, cwd, top);
    if w.Ok? { RmdirAtConnected(st, w.value, root); }
  }

  /** A new directory is reached through its parent. */
  lemma NewDirConnected(st: Store, st': Store, root: Ino, p: Place, c: Ino)
    requires Connected(st, root) && KeepsDirNames(st, st') && Live(st, p.0) && Live(st', p.0) && !IsDot(p.1) && Names(st', p, c)
    requires forall d :: Live(st', d) ==> Live(st, d) || d == c
    ensures Connected(st', root)
  {
    hide KeepsDirNames, Live, Leads;
    forall d: Ino | Live(st', d) ensures Reaches(st', root, d) {
      if Live(st, d) {
        var w :| Leads(st, root, w, d);
        PathKept(st, st', root, w, d);
      } else {
        var w :| Leads(st, root, w, p.0);
        PathKept(st, st', root, w, p.0);
        Extended(st', root, w, p, c);
      }
    }
  }

  lemma MkdirConnected(st: Store, path: Path, perm: nat, uid: nat, gid: nat, cwd: Ino, top: Ino, root: Ino)
    requires Linked(st, root) && Connected(st, root) && InLive(st, path, cwd, top)
    ensures Connected(Mkdir(st, path, perm, uid, gid, cwd, top).0, root)
  {
    hide Connected, Linked, WalkParent;
    LinkedShape(st, root);
    NumbersBelow(st, root);
    var w := WalkParent(st, path, cwd, top);
    if w.Ok? && Lookup(st, w.value.0, w.value.1) == Ok(None) {
      var (st1, r) := NewInode(st, FreshNode(Directory, perm, uid, gid, 0));
      if r.Ok? {
        assert forall q: Place, i :: Names(st1, q, i) <==> Names(st, q, i);
        MkdirNames(st1, r.value, w.value.0, w.value.1);
        NewDirConnected(st, MkdirSteps(st1, r.value, w.value.0, w.value.1), root, w.value, r.value);
      } else {
        ConnectedKept(st, st1, root);
      }
    }
  }

  // ---- rename -----------------------------------------------------------------------------------------

  /** A file that moves is on no path to a directory. */
  lemma FileMoveConnected(st: Store, op: Place, np: Place, v: Ino, root: Ino)
    requires Linked(st, root) && Connected(st, root) && Names(st, op, v) && !IsDir(st, v) && v in st.nodes
    requires !IsDot(op.1) && !IsDot(np.1) && Live(st, np.0) && np.1 !in st.nodes[np.0].entries && op != np
    ensures op.0 in st.nodes && np.0 in st.nodes && op.1 in st.nodes[op.0].entries && st.nodes[op.0].entries[op.1] == v
    ensures Connected(Move(st, op.0, op.1, np.0, np.1, v), root)
  {
    hide Connected, Linked, Names, Live, IsDot, LinkEntry, UnlinkEntry, Off;
    EntryOf(st, op, v);
    LiveIsDir(st, np.0);
    OffZero(st, root, v);
    LinkNames(st, np, v);
    var st1 := LinkEntry(st, np.0, np.1, v);
    forall q: Place, i | Names(st, q, i) && !IsDot(q.1) && Live(st1, i) ensures Names(st1, q, i) {
      if q == np { Unnamed(st, np, i); }
    }
    ConnectedKept(st, st1, root);
    EntryOf(st1, op, v);
    FileEntryGone(st1, op, v, root);
  }

  lemma Unnamed(st: Store, p: Place, i: Ino)
    requires p.0 in st.nodes && p.1 !in st.nodes[p.0].entries
    ensures !Names(st, p, i)
  {
  }

  /** Exactly the directories at and below v in the old store are no longer reached from the root. */
  ghost predicate Lost(st': Store, root: Ino, st: Store, v: Ino) {
    forall d :: Live(st', d) ==> (Reaches(st', root, d) <==> !Reaches(st, v, d))
  }

  /** The move proper, into a free place. */
  lemma RenameOverConnected(st: Store, op: Place, np: Place, v: Ino, root: Ino)
    requires Linked(st, root) && Connected(st, root) && Names(st, op, v) && v in st.nodes && !IsDot(op.1) && !IsDot(np.1)
    requires Live(st, np.0) && np.1 !in st.nodes[np.0].entries && op != np
    ensures Connected(RenameOver(st, op.0, op.1, np.0, np.1, v).0, root) <==> !(IsDir(st, v) && Reaches(st, v, np.0))
    ensures IsDir(st, v) && Reaches(st, v, np.0) ==> Lost(RenameOver(st, op.0, op.1, np.0, np.1, v).0, root, st, v)
  {
    hide Connected, Linked, Shaped, Reaches, Move, Names, Live;
    EntryOf(st, op, v);
    LiveIsDir(st, np.0);
    LinkedShape(st, root);
    if IsDir(st, v) {
      MoveDirLinked(st, op, np, v, root);
      forall i ensures !Names(st, np, i) { Unnamed(st, np, i); }
      var st' := Move(st, op.0, op.1, np.0, np.1, v);
      MoveConnected(st, st', root, op, np, v);
    } else {
      FileMoveConnected(st, op, np, v, root);
    }
  }

  /** What was in the way is gone, and no path to a directory that stays has changed. */
  lemma DisplaceConnected(st: Store, p: Place, x: Ino, root: Ino)
    requires Linked(st, root) && Connected(st, root) && Names(st, p, x) && x in st.nodes && !IsDot(p.1)
    requires p.0 in st.nodes && p.1 in st.nodes[p.0].entries && st.nodes[p.0].entries[p.1] == x
    ensures var st' := Displace(st, p.0, p.1).0;
      && Connected(st', root) && KeepsDirNames(st, st')
      && (forall q: Place, i :: Names(st', q, i) ==> Names(st, q, i)) && (forall i :: Live(st', i) ==> Live(st, i))
  {
    hide Connected, Linked, RmdirAt, UnlinkEntry, KeepsDirNames;
    EntryOf(st, p, x);
    if IsDir(st, x) { RmdirAtConnected(st, p, root); }
    else {
      FileEntryGone(st, p, x, root);
      UnlinkFileNames(st, p, x);
    }
  }

  lemma SameBelow(st: Store, st': Store, v: Ino, d: Ino)
    requires KeepsDirNames(st, st') && (forall q: Place, i :: Names(st', q, i) ==> Names(st, q, i)) && Live(st', d) && Live(st, d)
    ensures Reaches(st', v, d) <==> Reaches(st, v, d)
  {
    hide Leads, Names, Live;
    if w :| Leads(st, v, w, d) { PathKept(st, st', v, w, d); }
    if w :| Leads(st', v, w, d) { PathKept(st', st, v, w, d); }
  }

  /** The places and the inode of a rename, if both parents and the old name are found. */
  predicate Finds(st: Store, oldPath: Path, newPath: Path, cwd: Ino, top: Ino, op: Place, np: Place, v: Ino)
    requires cwd in st.nodes && top in st.nodes
  {
    && WalkParent(st, oldPath, cwd, top) == Ok(op) && WalkParent(st, newPath, cwd, top) == Ok(np)
    && Lookup(st, op.0, op.1) == Ok(Some(v))
  }

  /** A successful rename keeps every directory connected to the root if and only if it does not move a directory
      into itself or below itself; if it does, that directory and all below it are lost. */
  lemma RenameConnected(st: Store, oldPath: Path, newPath: Path, cwd: Ino, top: Ino, root: Ino, op: Place, np: Place, v: Ino)
    requires Linked(st, root) && Connected(st, root) && InLive(st, oldPath, cwd, top) && InLive(st, newPath, cwd, top)
    requires Finds(st, oldPath, newPath, cwd, top, op, np, v) && Rename(st, oldPath, newPath, cwd, top).1.Ok?
    ensures Connected(Rename(st, oldPath, newPath, cwd, top).0, root) <==> !(IsDir(st, v) && Reaches(st, v, np.0))
    ensures IsDir(st, v) && Reaches(st, v, np.0) ==> Lost(Rename(st, oldPath, newPath, cwd, top).0, root, st, v)
  {
    hide Connected, Linked, Shaped, Reaches, Live, Displace, RenameOver, WalkParent, KeepsDirNames;
    LinkedShape(st, root);
    assert Names(st, op, v);
    var x := Lookup(st, np.0, np.1);
    if x.Ok? && x.value.None? {
      RenameOverConnected(st, op, np, v, root);
    } else if x.Ok? && x.value.value == v {
      assert Names(st, np, v);
      if IsDir(st, v) { NotBelowItself(st, root, op, np, v); }
    } else if x.Ok? {
      assert Names(st, np, x.value.value);
      DisplaceLinked(st, np, x.value.value, root);
      DisplaceConnected(st, np, x.value.value, root);
      DisplaceLeaves(st, op, np, x.value.value, v, root);
      var st1 := Displace(st, np.0, np.1).0;
      SameBelow(st, st1, v, np.0);
      DisplaceKinds(st, np.0, np.1, v);
      RenameOverConnected(st1, op, np, v, root);
      var st' := RenameOver(st1, op.0, op.1, np.0, np.1, v).0;
      if IsDir(st, v) && Reaches(st, v, np.0) {
        RenameOverLive(st1, op, np, v, root);
        forall d | Live(st', d) ensures Reaches(st', root, d) <==> !Reaches(st, v, d) { SameBelow(st, st1, v, d); }
      }
    }
  }

  lemma RenameOverLive(st: Store, op: Place, np: Place, v: Ino, root: Ino)
    requires Linked(st, root) && Names(st, op, v) && IsDir(st, v) && v in st.nodes && !IsDot(op.1) && !IsDot(np.1)
    requires Live(st, np.0) && np.1 !in st.nodes[np.0].entries && op != np
    ensures forall d :: Live(RenameOver(st, op.0, op.1, np.0, np.1, v).0, d) <==> Live(st, d)
  {
    hide Linked, Move, Names, Live, IsDot;
    EntryOf(st, op, v);
    MoveDirLinked(st, op, np, v, root);
  }

  lemma DisplaceKinds(st: Store, parent: Ino, name: Name, v: Ino)
    requires parent in st.nodes && name in st.nodes[parent].entries && st.nodes[parent].entries[name] in st.nodes
    ensures IsDir(Displace(st, parent, name).0, v) <==> IsDir(st, v)
  {
  }

  /** The directory of a name of v is not below v. */
  lemma NotBelowItself(st: Store, root: Ino, op: Place, np: Place, v: Ino)
    requires Shaped(st, root) && Connected(st, root) && Names(st, op, v) && !IsDot(op.1) && IsDir(st, v)
    requires Names(st, np, v) && !IsDot(np.1)
    ensures !Reaches(st, v, np.0)
  {
    hide Shaped, Leads;
    OneDirName(st, root, op, np, v);
    if w :| Leads(st, v, w, np.0) {
      Extended(st, v, w, np, v);
      NoLoop(st, root, v, w + [np.1]);
    }
  }

  /** A rename that fails changes nothing. */
  lemma FailedRename(st: Store, oldPath: Path, newPath: Path, cwd: Ino, top: Ino, root: Ino)
    requires Linked(st, root) && InLive(st, oldPath, cwd, top) && InLive(st, newPath, cwd, top)
    requires Rename(st, oldPath, newPath, cwd, top).1.Err?
    ensures Rename(st, oldPath, newPath, cwd, top).0 == st
  {
    hide Linked, Shaped, Displace, RenameOver, WalkParent;
    var o, n := WalkParent(st, oldPath, cwd, top), WalkParent(st, newPath, cwd, top);
    if o.Ok? && n.Ok? {
      var lo, ln := Lookup(st, o.value.0, o.value.1), Lookup(st, n.value.0, n.value.1);
      if lo.Ok? && lo.value.Some? && ln.Ok? {
        var v := lo.value.value;
        assert Names(st, o.value, v);
        if ln.value.None? {
          RenameOverLinked(st, o.value, n.value, v, root);
        } else if ln.value.value != v {
          var x := ln.value.value;
          assert Names(st, n.value, x);
          DisplaceFails(st, n.value.0, n.value.1);
          DisplaceLinked(st, n.value, x, root);
          var (st1, r) := Displace(st, n.value.0, n.value.1);
          if r.Ok? {
            DisplaceLeaves(st, o.value, n.value, x, v, root);
            RenameOverLinked(st1, o.value, n.value, v, root);
          }
        }
      }
    }
  }

  lemma DisplaceFails(st: Store, parent: Ino, name: Name)
    requires parent in st.nodes && name in st.nodes[parent].entries && st.nodes[parent].entries[name] in st.nodes
    ensures Displace(st, parent, name).1.Err? ==> Displace(st, parent, name).0 == st
  {
  }

  // ---- Sequences -----------------------------------------------------------------------------------------

  /** The operation is a successful rename of a directory into itself or below itself. */
  ghost predicate Misplaces(st: Store, o: Issued)
    requires o.cwd in st.nodes && o.top in st.nodes
  {
    && o.op.Relocate? && Perform(st, o).1.Ok?
    && exists op, np, v :: Finds(st, o.op.oldPath, o.op.newPath, o.cwd, o.top, op, np, v) && IsDir(st, v) && Reaches(st, v, np.0)
  }

  lemma RelocateConnected(st: Store, o: Issued, root: Ino)
    requires Linked(st, root) && Connected(st, root) && o.cwd in st.nodes && o.top in st.nodes && AmongLive(st, o)
    requires o.op.Relocate?
    ensures Connected(Perform(st, o).0, root) <==> !Misplaces(st, o)
  {
    hide Linked, Connected, Rename, Finds, Reaches;
    var p, q := o.op.oldPath, o.op.newPath;
    if Rename(st, p, q, o.cwd, o.top).1.Err? {
      FailedRename(st, p, q, o.cwd, o.top, root);
    } else {
      var op, np, v := RenameFinds(st, p, q, o.cwd, o.top);
      RenameConnected(st, p, q, o.cwd, o.top, root, op, np, v);
      forall a, b, c | Finds(st, p, q, o.cwd, o.top, a, b, c) ensures a == op && b == np && c == v {
        FindsOnce(st, p, q, o.cwd, o.top, op, np, v, a, b, c);
      }
    }
  }

  lemma RenameFinds(st: Store, p: Path, q: Path, cwd: Ino, top: Ino) returns (op: Place, np: Place, v: Ino)
    requires cwd in st.nodes && top in st.nodes && Rename(st, p, q, cwd, top).1.Ok?
    ensures Finds(st, p, q, cwd, top, op, np, v)
  {
    op, np := WalkParent(st, p, cwd, top).value, WalkParent(st, q, cwd, top).value;
    v := Lookup(st, op.0, op.1).value.value;
  }

  lemma FindsOnce(st: Store, p: Path, q: Path, cwd: Ino, top: Ino, op: Place, np: Place, v: Ino, op': Place, np': Place, v': Ino)
    requires cwd in st.nodes && top in st.nodes && Finds(st, p, q, cwd, top, op, np, v) && Finds(st, p, q, cwd, top, op', np', v')
    ensures op == op' && np == np' && v == v'
  {
  }

  lemma OnNodeConnected(st: Store, op: Op, root: Ino)
    requires Connected(st, root) && (op.Contents? || op.Resize? || op.Opened? || op.Closed?)
    ensures Connected(OnNode(st, op).0, root)
  {
    hide Connected, Splice;
    ConnectedKept(st, OnNode(st, op).0, root);
  }

  /** One operation keeps the directories connected if and only if it is not such a rename. */
  lemma PerformConnected(st: Store, o: Issued, root: Ino)
    requires Linked(st, root) && Connected(st, root) && o.cwd in st.nodes && o.top in st.nodes && AmongLive(st, o) && Proper(o)
    ensures Connected(Perform(st, o).0, root) <==> !Misplaces(st, o)
  {
    hide Linked, Connected, InLive, OnNode, Create, Mkdir, Rmdir, Unlink, Link, Rename, Finds, Reaches;
    match o.op
    case MakeNode(path, n) => CreateConnected(st, path, n, o.cwd, o.top, root);
    case MakeDir(path, perm, uid, gid) => MkdirConnected(st, path, perm, uid, gid, o.cwd, o.top, root);
    case RemoveDirectory(path) => RmdirConnected(st, path, o.cwd, o.top, root);
    case Remove(path) => UnlinkConnected(st, path, o.cwd, o.top, root);
    case HardLink(p, q) => LinkConnected(st, p, q, o.cwd, o.top, root);
    case Relocate(p, q) => RelocateConnected(st, o, root);
    case _ => OnNodeConnected(st, o.op, root);
  }

  ghost predicate NoneMisplaces(st: Store, ops: seq<Issued>)
    requires AllPlaced(st, ops)
    decreases |ops|
  {
    |ops| > 0 ==> !Misplaces(st, ops[0]) && NoneMisplaces(Perform(st, ops[0]).0, ops[1..])
  }

  /** There is exactly one path of ordinary entries from the root to each directory. */
  ghost predicate IsTree(st: Store, root: Ino) {
    && Connected(st, root)
    && forall d, p, q :: Live(st, d) && Leads(st, root, p, d) && Leads(st, root, q, d) ==> p == q
  }

  lemma ConnectedIsTree(st: Store, root: Ino)
    requires Shaped(st, root) && Connected(st, root)
    ensures IsTree(st, root)
  {
    hide Shaped, Connected, Live, Leads;
    forall d, p, q | Live(st, d) && Leads(st, root, p, d) && Leads(st, root, q, d) ensures p == q {
      LiveIsDir(st, d);
      OnePath(st, root, p, q, d);
    }
  }

  /** Without such renames the directories stay a tree through any sequence of operations. */
  lemma {:induction false} TreeKept(st: Store, ops: seq<Issued>, root: Ino)
    requires Linked(st, root) && IsTree(st, root) && AllPlaced(st, ops) && AllIssued(st, ops) && NoneMisplaces(st, ops)
    ensures IsTree(PerformAll(st, ops).0, root)
    decreases |ops|
  {
    hide Linked, Connected, AmongLive, Perform, Misplaces, Live, Leads;
    if |ops| > 0 {
      PerformLinked(st, ops[0], root);
      PerformConnected(st, ops[0], root);
      var st1 := Perform(st, ops[0]).0;
      LinkedShape(st1, root);
      ConnectedIsTree(st1, root);
      TreeKept(st1, ops[1..], root);
    }
  }

  // ---- The rename that is not refused -------------------------------------------------------------------

  /** The root with a directory a, and b in it. */
  function Nested(): Store {
    var d := FreshNode(Directory, 0, 0, 0, 0);
    Store(map[1 := d.(nlinks := 3, entries := map["." := 1, ".." := 1, "a" := 2]),
              2 := d.(nlinks := 3, entries := map["." := 2, ".." := 1, "b" := 3]),
              3 := d.(nlinks := 2, entries := map["." := 3, ".." := 2])], 4)
  }

  function PlacesIn(i: Ino): set<Place> {
    if i == 1 then {(1, "."), (1, ".."), (2, "..")}
    else if i == 2 then {(2, "."), (1, "a"), (3, "..")}
    else if i == 3 then {(3, "."), (2, "b")}
    else {}
  }

  lemma NestedShaped()
    ensures Shaped(Nested(), 1)
  {
    hide ChildOk, Above, HasChild;
    NestedAbove();
    forall p, c ensures ChildOk(Nested(), p, c, 1) { NestedChild(p, c); }
  }

  lemma NestedAbove()
    ensures var st := Nested();
      HasChild(st, 1, 2) && HasChild(st, 2, 3) && Above(st, 1, 1, 1) && Above(st, 2, 1, 1) && Above(st, 3, 2, 1)
  {
    var st := Nested();
    assert HasChild(st, 1, 2) by { assert Names(st, (1, "a"), 2); }
    assert HasChild(st, 2, 3) by { assert Names(st, (2, "b"), 3); }
  }

  lemma NestedChild(p: Place, c: Ino)
    ensures ChildOk(Nested(), p, c, 1)
  {
    var st := Nested();
    if Names(st, p, c) && !IsDot(p.1) {
      assert (p, c) == ((1, "a"), 2) || (p, c) == ((2, "b"), 3);
    }
  }

  lemma NestedLinked()
    ensures Linked(Nested(), 1)
  {
    hide Named, Shaped;
    var st := Nested();
    NestedShaped();
    forall i ensures Off(st, i) == 0 {
      forall q: Place ensures q in Named(st, i) <==> q in PlacesIn(i) {
        NamedMember(st, i, q);
        NestedNames(q, i);
      }
      assert Named(st, i) == PlacesIn(i);
      PlacesCounted(i);
    }
  }

  lemma NestedNames(q: Place, i: Ino)
    ensures Names(Nested(), q, i) <==> q in PlacesIn(i)
  {
  }

  lemma PlacesCounted(i: Ino)
    ensures (if i in Nested().nodes then Nested().nodes[i].nlinks else 0) == |PlacesIn(i)|
  {
  }

  lemma NestedConnected()
    ensures Connected(Nested(), 1)
  {
    var st := Nested();
    assert Leads(st, 1, [], 1);
    assert ["a"][1..] == [] && ["a", "b"][1..] == ["b"] && ["b"][1..] == [];
    assert Leads(st, 1, ["a"], 2);
    assert Leads(st, 2, ["b"], 3);
    assert Leads(st, 1, ["a", "b"], 3);
  }

  /** rename("/a", "/a/b/c") succeeds, and afterwards neither a nor b is reached from the root, every count being
      exact all the same. */
  lemma RenameBelowItself()
    ensures Linked(Nested(), 1) && Connected(Nested(), 1)
    ensures var (st, r) := Rename(Nested(), Path(true, ["a"]), Path(true, ["a", "b", "c"]), 1, 1);
      r.Ok? && Linked(st, 1) && Live(st, 2) && Live(st, 3) && !Reaches(st, 1, 2) && !Reaches(st, 1, 3)
  {
    hide Linked, Connected, Reaches, Rename, WalkParent;
    NestedLinked();
    NestedConnected();
    NestedWalks();
    var st := Nested();
    RenameConnected(st, Path(true, ["a"]), Path(true, ["a", "b", "c"]), 1, 1, 1, (1, "a"), (3, "c"), 2);
    RenameLinked(st, Path(true, ["a"]), Path(true, ["a", "b", "c"]), 1, 1, 1);
    Itself(st, 2);
  }

  lemma NestedWalks()
    ensures var st, p, q := Nested(), Path(true, ["a"]), Path(true, ["a", "b", "c"]);
      && WalkParent(st, p, 1, 1) == Ok((1, "a")) && WalkParent(st, q, 1, 1) == Ok((3, "c"))
      && Rename(st, p, q, 1, 1).1.Ok? && Live(Rename(st, p, q, 1, 1).0, 2) && Live(Rename(st, p, q, 1, 1).0, 3)
      && Reaches(st, 2, 3)
  {
    var st := Nested();
    var p, q := ["a"], ["a", "b", "c"];
    assert Trim(p) == p && Trim(q) == q && p[..0] == [] && q[..2] == ["a", "b"];
    assert ["a", "b"][1..] == ["b"] && ["b"][1..] == [];
    assert Walk(st, ["b"], 2, 1) == Ok(3);
    assert Walk(st, ["a", "b"], 1, 1) == Ok(3);
    assert Leads(st, 2, ["b"], 3);
  }
}
