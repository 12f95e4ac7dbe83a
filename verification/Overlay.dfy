/** The copy-on-write layer over a read-only image (kvfs.py, `OverlayFS`): every operation does to the
    flattened view what it does to a plain in-memory store. */
module Overlay {
  import opened Words
  import opened PlainStore
  import P = PlainStore
  import C = LinkCounts

  /** An inode of the image, with its contents or its directory listing as the parser delivers them. */
  datatype BaseInode = BaseInode(kind: Kind, perm: nat, uid: nat, gid: nat, rdev: nat, nlinks: nat,
                                 content: seq<Byte>, listing: seq<(Ino, Name)>)

  /** The image: inode i is at index i - 1. */
  type Image = seq<BaseInode>

  predicate InImage(base: Image, i: Ino) {
    1 <= i <= |base|
  }

  // ---- Listings --------------------------------------------------------------------------

  /** What a search through a listing finds. */
  function FirstMatch(l: seq<(Ino, Name)>, name: Name): Option<Ino> {
    if |l| == 0 then None
    else if l[0].1 == name then Some(l[0].0)
    else FirstMatch(l[1..], name)
  }

  /** The dictionary built from a listing: later entries win. */
  function DictOf(l: seq<(Ino, Name)>): map<Name, Ino> {
    if |l| == 0 then map[] else DictOf(l[..|l| - 1])[l[|l| - 1].1 := l[|l| - 1].0]
  }

  /** What the dictionary finds. */
  function InDict(l: seq<(Ino, Name)>, name: Name): Option<Ino> {
    if name in DictOf(l) then Some(DictOf(l)[name]) else None
  }

  predicate IsFirst(l: seq<(Ino, Name)>, i: int) {
    0 <= i < |l| && forall k :: 0 <= k < i ==> l[k].1 != l[i].1
  }

  predicate IsLast(l: seq<(Ino, Name)>, j: int) {
    0 <= j < |l| && forall k :: j < k < |l| ==> l[k].1 != l[j].1
  }

  /** The first and the last entry of every name hold the same inode. */
  predicate EndsAgree(l: seq<(Ino, Name)>) {
    forall i, j :: 0 <= i < |l| && 0 <= j < |l| && IsFirst(l, i) && IsLast(l, j) && l[i].1 == l[j].1 ==> l[i].0 == l[j].0
  }

  lemma {:induction false} FirstFound(l: seq<(Ino, Name)>, i: int)
    requires IsFirst(l, i)
    ensures FirstMatch(l, l[i].1) == Some(l[i].0)
    decreases i
  {
    if i > 0 {
      assert l[0].1 != l[i].1 && l[1..][i - 1] == l[i];
      forall k | 0 <= k < i - 1 ensures l[1..][k].1 != l[i].1 { assert l[1..][k] == l[k + 1]; }
      FirstFound(l[1..], i - 1);
    }
  }

  lemma {:induction false} LastKept(l: seq<(Ino, Name)>, j: int)
    requires IsLast(l, j)
    ensures InDict(l, l[j].1) == Some(l[j].0)
    decreases |l|
  {
    if j < |l| - 1 {
      assert l[|l| - 1].1 != l[j].1;
      LastKept(l[..|l| - 1], j);
    }
  }

  /** A name without entries is found by neither; otherwise it has a first and a last entry. */
  lemma {:induction false} NotFound(l: seq<(Ino, Name)>, name: Name)
    ensures FirstMatch(l, name).Some? <==> exists i :: IsFirst(l, i) && l[i].1 == name
    decreases |l|
  {
    if |l| > 0 {
      if l[0].1 == name { assert IsFirst(l, 0); }
      else {
        NotFound(l[1..], name);
        if i :| IsFirst(l[1..], i) && l[1..][i].1 == name {
          assert l[i + 1] == l[1..][i];
          forall k | 0 <= k < i + 1 ensures l[k].1 != name { if k > 0 { assert l[k] == l[1..][k - 1]; } }
          assert IsFirst(l, i + 1);
        }
      }
    }
    if i :| IsFirst(l, i) && l[i].1 == name { FirstFound(l, i); }
  }

  lemma {:induction false} NotKept(l: seq<(Ino, Name)>, name: Name)
    ensures InDict(l, name).Some? <==> exists j :: IsLast(l, j) && l[j].1 == name
    decreases |l|
  {
    if |l| > 0 {
      var n := |l| - 1;
      if l[n].1 == name { assert IsLast(l, n); }
      else {
        NotKept(l[..n], name);
        if j :| IsLast(l[..n], j) && l[..n][j].1 == name { assert IsLast(l, j); }
      }
    }
    if j :| IsLast(l, j) && l[j].1 == name { LastKept(l, j); }
  }

  /** A name that has a first entry has a last one, and the other way round. */
  lemma BothEnds(l: seq<(Ino, Name)>, name: Name)
    ensures FirstMatch(l, name).Some? <==> InDict(l, name).Some?
  {
    SearchHas(l, name);
    DictHas(l, name);
  }

  lemma {:induction false} SearchHas(l: seq<(Ino, Name)>, name: Name)
    ensures FirstMatch(l, name).Some? <==> exists i :: 0 <= i < |l| && l[i].1 == name
  {
    if |l| > 0 {
      SearchHas(l[1..], name);
      if i :| 0 <= i < |l[1..]| && l[1..][i].1 == name { assert l[i + 1].1 == name; }
      if i :| 0 <= i < |l| && l[i].1 == name { if i > 0 { assert l[1..][i - 1].1 == name; } }
    }
  }

  lemma {:induction false} DictHas(l: seq<(Ino, Name)>, name: Name)
    ensures InDict(l, name).Some? <==> exists i :: 0 <= i < |l| && l[i].1 == name
    decreases |l|
  {
    if |l| > 0 {
      var init := l[..|l| - 1];
      DictHas(init, name);
      if i :| 0 <= i < |init| && init[i].1 == name { assert l[i].1 == name; }
      if i :| 0 <= i < |l| && l[i].1 == name { if i < |init| { assert init[i].1 == name; } }
    }
  }

  /** The search finds what the dictionary holds if and only if the first and the last entry of that name hold the
      same inode. */
  lemma SearchIsDict(l: seq<(Ino, Name)>, i: int, j: int)
    requires IsFirst(l, i) && IsLast(l, j) && l[i].1 == l[j].1
    ensures FirstMatch(l, l[i].1) == InDict(l, l[i].1) <==> l[i].0 == l[j].0
  {
    FirstFound(l, i);
    LastKept(l, j);
  }

  /** So they agree on every name if and only if the ends agree. */
  lemma SearchesAgree(l: seq<(Ino, Name)>)
    ensures EndsAgree(l) <==> forall name :: FirstMatch(l, name) == InDict(l, name)
  {
    hide FirstMatch, InDict;
    if EndsAgree(l) {
      forall name ensures FirstMatch(l, name) == InDict(l, name) { EndsAgreeFor(l, name); }
    }
    if forall name :: FirstMatch(l, name) == InDict(l, name) {
      forall i, j | IsFirst(l, i) && IsLast(l, j) && l[i].1 == l[j].1 ensures l[i].0 == l[j].0 {
        SearchIsDict(l, i, j);
      }
    }
  }

  lemma EndsAgreeFor(l: seq<(Ino, Name)>, name: Name)
    requires EndsAgree(l)
    ensures FirstMatch(l, name) == InDict(l, name)
  {
    hide FirstMatch, InDict;
    BothEnds(l, name);
    NotFound(l, name);
    NotKept(l, name);
    if FirstMatch(l, name).Some? {
      var i :| IsFirst(l, i) && l[i].1 == name;
      var j :| IsLast(l, j) && l[j].1 == name;
      SearchIsDict(l, i, j);
    }
  }

  /** Duplicates need not show, but they can: the ends of the first listing agree, those of the second do not, and
      its name leads to 2 before the copy and to 3 after it. */
  lemma DuplicatesCanShow()
    ensures EndsAgree([(2, "x"), (3, "x"), (2, "x")])
    ensures var l := [(2, "x"), (3, "x")];
      !EndsAgree(l) && FirstMatch(l, "x") == Some(2) && InDict(l, "x") == Some(3)
  {
    var three: seq<(Ino, Name)> := [(2, "x"), (3, "x"), (2, "x")];
    forall i, j | IsFirst(three, i) && IsLast(three, j) ensures i == 0 && j == 2 {
      assert three[0].1 == three[i].1 && three[2].1 == three[j].1;
    }
    var l: seq<(Ino, Name)> := [(2, "x"), (3, "x")];
    assert IsFirst(l, 0) && IsLast(l, 1);
    FirstFound(l, 0);
    LastKept(l, 1);
  }

  // ---- The view -----------------------------------------------------------------------------

  /** An inode of the overlay; None means that contents or entries are still those of the image. */
  datatype VInode = VInode(kind: Kind, perm: nat, uid: nat, gid: nat, rdev: nat, nlinks: int, openRefs: int,
                           deleted: bool, data: Option<seq<Byte>>, entries: Option<map<Name, Ino>>)

  function FromBase(b: BaseInode): VInode {
    VInode(b.kind, b.perm, b.uid, b.gid, b.rdev, b.nlinks, 0, false, None, None)
  }

  function DataOf(base: Image, i: Ino, v: VInode): seq<Byte> {
    if v.data.Some? then v.data.value
    else if InImage(base, i) && v.kind != Directory then base[i - 1].content
    else []
  }

  function EntriesOf(base: Image, i: Ino, v: VInode): map<Name, Ino> {
    if v.entries.Some? then v.entries.value
    else if InImage(base, i) && v.kind == Directory then DictOf(base[i - 1].listing)
    else map[]
  }

  /** What a program can see of an inode. */
  function Flat(base: Image, i: Ino, v: VInode): Node {
    Node(v.kind, v.perm, v.uid, v.gid, v.rdev, v.nlinks, v.openRefs, v.deleted, DataOf(base, i, v), EntriesOf(base, i, v))
  }

  function NodeAt(base: Image, vnodes: map<Ino, VInode>, i: Ino): Node
    requires i in vnodes || InImage(base, i)
  {
    Flat(base, i, if i in vnodes then vnodes[i] else FromBase(base[i - 1]))
  }

  function View(base: Image, vnodes: map<Ino, VInode>): map<Ino, Node> {
    map i | i in vnodes.Keys + Inodes(base) :: NodeAt(base, vnodes, i)
  }

  function Inodes(base: Image): (s: set<Ino>)
    ensures forall i :: i in s <==> InImage(base, i)
  {
    set i: Ino | i in UpTo(|base|) && i >= 1
  }

  /** How an overlay inode may look: kinds come from the image and do not change, directories have
      entries, other inodes data, and new inodes have theirs in memory. */
  predicate GoodNode(base: Image, i: Ino, v: VInode) {
    && (InImage(base, i) ==> v.kind == base[i - 1].kind)
    && (v.kind == Directory ==> v.data.None? && (!InImage(base, i) ==> v.entries.Some?))
    && (v.kind != Directory ==> v.entries.None? && (!InImage(base, i) ==> v.data.Some?))
  }

  lemma ViewOfUpdate(base: Image, vnodes: map<Ino, VInode>, i: Ino, v: VInode)
    ensures View(base, vnodes[i := v]) == View(base, vnodes)[i := Flat(base, i, v)]
  {
  }

  lemma ViewHas(base: Image, vnodes: map<Ino, VInode>, i: Ino)
    ensures i in View(base, vnodes) <==> i in vnodes || InImage(base, i)
    ensures i in vnodes ==> View(base, vnodes)[i] == Flat(base, i, vnodes[i])
    ensures i !in vnodes && InImage(base, i) ==> View(base, vnodes)[i] == Flat(base, i, FromBase(base[i - 1]))
  {
  }

  /** What a lookup of a name in a directory finds: the copied entries, or the listing. */
  function Found(base: Image, i: Ino, v: VInode, name: Name): Option<Ino>
    requires v.entries.None? ==> InImage(base, i)
  {
    match v.entries
    case Some(entries) => if name in entries then Some(entries[name]) else None
    case None => FirstMatch(base[i - 1].listing, name)
  }

  /** Copying a directory of the image changes no lookup in it if and only if the ends of its listing agree. */
  lemma CopyUnnoticed(base: Image, i: Ino, v: VInode)
    requires InImage(base, i) && v.entries.None?
    ensures (forall name :: Found(base, i, v.(entries := Some(DictOf(base[i - 1].listing))), name) == Found(base, i, v, name))
       <==> EndsAgree(base[i - 1].listing)
  {
    hide EndsAgree, FirstMatch;
    var l := base[i - 1].listing;
    SearchesAgree(l);
    forall name ensures Found(base, i, v.(entries := Some(DictOf(l))), name) == InDict(l, name) {}
    if forall name :: Found(base, i, v.(entries := Some(DictOf(l))), name) == Found(base, i, v, name) {
      forall name ensures FirstMatch(l, name) == InDict(l, name) {
        assert Found(base, i, v.(entries := Some(DictOf(l))), name) == Found(base, i, v, name);
      }
    }
  }

  /** Caching an inode, copying a file and copying a directory leave the view as it is. */
  lemma CopiesInvisible(base: Image, i: Ino, v: VInode)
    requires InImage(base, i)
    ensures v.kind != Directory && v.data.None? ==> Flat(base, i, v.(data := Some(base[i - 1].content))) == Flat(base, i, v)
    ensures v.kind == Directory && v.entries.None? ==>
      Flat(base, i, v.(entries := Some(DictOf(base[i - 1].listing)))) == Flat(base, i, v)
  {
  }

  /** Before anything has happened: the inodes of the image with their attributes, contents and listings, none of them
      open or removed; a name leads where a search of the listing, that is its first entry, leads. */
  lemma FirstView(base: Image, i: Ino)
    requires InImage(base, i) ==> EndsAgree(base[i - 1].listing)
    ensures i in View(base, map[]) <==> 1 <= i <= |base|
    ensures 1 <= i <= |base| ==>
      var n, b := View(base, map[])[i], base[i - 1];
      && n.kind == b.kind && n.perm == b.perm && n.uid == b.uid && n.gid == b.gid && n.rdev == b.rdev && n.nlinks == b.nlinks
      && n.openRefs == 0 && !n.deleted
      && n.data == (if b.kind == Directory then [] else b.content)
      && (b.kind != Directory ==> n.entries == map[])
      && (b.kind == Directory ==>
           && (forall name :: name in n.entries <==> exists k :: 0 <= k < |b.listing| && b.listing[k].1 == name)
           && forall k :: IsFirst(b.listing, k) ==> b.listing[k].1 in n.entries && n.entries[b.listing[k].1] == b.listing[k].0)
  {
    hide EndsAgree, FirstMatch, DictOf;
    ViewHas(base, map[], i);
    if InImage(base, i) && base[i - 1].kind == Directory {
      var l := base[i - 1].listing;
      forall name ensures name in DictOf(l) <==> exists k :: 0 <= k < |l| && l[k].1 == name { DictHas(l, name); }
      forall k | IsFirst(l, k) ensures l[k].1 in DictOf(l) && DictOf(l)[l[k].1] == l[k].0 {
        FirstFound(l, k);
        EndsAgreeFor(l, l[k].1);
      }
    }
  }

  // ---- The object -------------------------------------------------------------------------------

  class OverlayFS {
    const base: Image
    var vnodes: map<Ino, VInode>
    var nextIno: Ino

    ghost predicate Valid()
      reads this
    {
      && nextIno > |base|
      && (forall i :: i in vnodes ==> GoodNode(base, i, vnodes[i]) && i < nextIno)
      && (forall i :: InImage(base, i) ==> EndsAgree(base[i - 1].listing))
    }

    /** The flattened view as a plain store. */
    function Value(): Store
      reads this
    {
      Store(View(base, vnodes), nextIno)
    }

    constructor (image: Image)
      requires |image| >= 1 && forall i :: InImage(image, i) ==> EndsAgree(image[i - 1].listing)
      ensures Valid() && base == image && nextIno == |image| + 1 && 1 in vnodes
      ensures Value() == Store(View(image, map[]), |image| + 1)
    {
      hide EndsAgree, DictOf;
      base, vnodes, nextIno := image, map[1 := FromBase(image[0])], |image| + 1;
      new;
      assert View(image, vnodes) == View(image, map[]);
    }

    /** The inode from the overlay, or wrapped from the image and kept. */
    method Get(i: Ino) returns (r: Outcome<()>)
      requires Valid()
      modifies this`vnodes
      ensures Valid() && Value() == old(Value()) && old(vnodes).Keys <= vnodes.Keys
      ensures r == if i in old(Value()).nodes then Ok(()) else Err(ENOENT)
      ensures r.Ok? ==> i in vnodes
    {
      ViewHas(base, vnodes, i);
      if i in vnodes { return Ok(()); }
      if !(1 <= i <= |base|) { return Err(ENOENT); }
      ViewOfUpdate(base, vnodes, i, FromBase(base[i - 1]));
      assert View(base, vnodes)[i := View(base, vnodes)[i]] == View(base, vnodes);
      vnodes := vnodes[i := FromBase(base[i - 1])];
      r := Ok(());
    }

    /** The contents in memory from now on. */
    method CowFile(i: Ino) returns (data: seq<Byte>)
      requires Valid() && i in vnodes && vnodes[i].kind != Directory
      modifies this`vnodes
      ensures Valid() && Value() == old(Value()) && vnodes.Keys == old(vnodes).Keys
      ensures vnodes[i].data == Some(data) && vnodes[i] == old(vnodes)[i].(data := Some(data))
      ensures data == old(Value()).nodes[i].data
    {
      ViewHas(base, vnodes, i);
      var v := vnodes[i];
      if v.data.None? {
        CopiesInvisible(base, i, v);
        var w := v.(data := Some(base[i - 1].content));
        ViewOfUpdate(base, vnodes, i, w);
        assert View(base, vnodes)[i := View(base, vnodes)[i]] == View(base, vnodes);
        vnodes := vnodes[i := w];
      }
      data := vnodes[i].data.value;
    }

    /** The dictionary of a listing, entry by entry. */
    method ReadDict(l: seq<(Ino, Name)>) returns (m: map<Name, Ino>)
      ensures m == DictOf(l)
    {
      m := map[];
      for k := 0 to |l|
        invariant m == DictOf(l[..k])
      {
        assert l[..k + 1][..k] == l[..k];
        m := m[l[k].1 := l[k].0];
      }
      assert l[..|l|] == l;
    }

    /** The entries in memory from now on. */
    method CowDir(i: Ino) returns (entries: map<Name, Ino>)
      requires Valid() && i in vnodes && vnodes[i].kind == Directory
      modifies this`vnodes
      ensures Valid() && Value() == old(Value()) && vnodes.Keys == old(vnodes).Keys
      ensures vnodes[i].entries == Some(entries) && vnodes[i] == old(vnodes)[i].(entries := Some(entries))
      ensures entries == old(Value()).nodes[i].entries
    {
      hide EndsAgree, DictOf;
      ViewHas(base, vnodes, i);
      var v := vnodes[i];
      if v.entries.None? {
        CopiesInvisible(base, i, v);
        var m := ReadDict(base[i - 1].listing);
        var w := v.(entries := Some(m));
        ViewOfUpdate(base, vnodes, i, w);
        assert View(base, vnodes)[i := View(base, vnodes)[i]] == View(base, vnodes);
        vnodes := vnodes[i := w];
      }
      entries := vnodes[i].entries.value;
    }

    /** Lookup in the copied entries, or by search through the image's listing. */
    method Lookup(dir: Ino, name: Name) returns (r: Outcome<Option<Ino>>)
      requires Valid() && dir in vnodes && dir in Value().nodes
      modifies this`vnodes
      ensures Valid() && Value() == old(Value()) && old(vnodes).Keys <= vnodes.Keys
      ensures r == P.Lookup(old(Value()), dir, name)
      ensures r.Ok? && r.value.Some? ==> r.value.value in vnodes
    {
      ViewHas(base, vnodes, dir);
      var v := vnodes[dir];
      if v.kind != Directory { return Err(ENOTDIR); }
      if v.entries.Some? {
        if name !in v.entries.value { return Ok(None); }
        var g := Get(v.entries.value[name]);
        return if g.Err? then Err(g.errno) else Ok(Some(v.entries.value[name]));
      }
      var l := base[dir - 1].listing;
      EndsAgreeFor(l, name);
      for k := 0 to |l|
        invariant FirstMatch(l[k..], name) == FirstMatch(l, name)
        invariant Valid() && vnodes == old(vnodes)
      {
        assert l[k..][0] == l[k] && l[k..][1..] == l[k + 1..];
        if l[k].1 == name {
          var g := Get(l[k].0);
          return if g.Err? then Err(g.errno) else Ok(Some(l[k].0));
        }
      }
      return Ok(None);
    }

    method Walk(parts: seq<Name>, start: Ino, root: Ino) returns (r: Outcome<Ino>)
      requires Valid() && start in vnodes && start in Value().nodes
      modifies this`vnodes
      ensures Valid() && Value() == old(Value()) && old(vnodes).Keys <= vnodes.Keys
      ensures r == P.Walk(old(Value()), parts, start, root)
      ensures r.Ok? ==> r.value in vnodes
    {
      var cur := start;
      ghost var st := Value();
      for k := 0 to |parts|
        invariant Valid() && Value() == st && old(vnodes).Keys <= vnodes.Keys && cur in vnodes && cur in st.nodes
        invariant P.Walk(st, parts[k..], cur, root) == P.Walk(st, parts, start, root)
      {
        var part := parts[k];
        assert parts[k..][0] == part && parts[k..][1..] == parts[k + 1..];
        ViewHas(base, vnodes, cur);
        if part == "" || part == "." { continue; }
        if vnodes[cur].kind != Directory { return Err(ENOTDIR); }
        if part == ".." && cur == root { continue; }
        var next := Lookup(cur, part);
        if next.Err? { return Err(next.errno); }
        if next.value.None? { return Err(ENOENT); }
        cur := next.value.value;
      }
      r := Ok(cur);
    }

    method WalkParent(path: Path, cwd: Ino, root: Ino) returns (r: Outcome<(Ino, Name)>)
      requires Valid() && cwd in vnodes && root in vnodes && cwd in Value().nodes && root in Value().nodes
      modifies this`vnodes
      ensures Valid() && Value() == old(Value()) && old(vnodes).Keys <= vnodes.Keys
      ensures r == P.WalkParent(old(Value()), path, cwd, root)
      ensures r.Ok? ==> r.value.0 in vnodes
    {
      var parts := Trim(path.parts);
      if |parts| == 0 { return Err(EBUSY); }
      var parent := Walk(parts[..|parts| - 1], Start(path, cwd, root), root);
      if parent.Err? { return Err(parent.errno); }
      var name := parts[|parts| - 1];
      ViewHas(base, vnodes, parent.value);
      if vnodes[parent.value].kind != Directory { return Err(ENOTDIR); }
      if name == "." || name == ".." { return Err(EINVAL); }
      r := Ok((parent.value, Cut(name)));
    }

    /** An inode's fields change in place. */
    method Update(i: Ino, v: VInode)
      requires Valid() && i in vnodes && GoodNode(base, i, v) 
      modifies this`vnodes
      ensures Valid() && vnodes == old(vnodes)[i := v]
      ensures Value() == Put(old(Value()), i, Flat(base, i, v))
    {
      ViewOfUpdate(base, vnodes, i, v);
      vnodes := vnodes[i := v];
    }

    method AddLinks(i: Ino, k: int)
      requires Valid() && i in vnodes && i in Value().nodes
      modifies this`vnodes
      ensures Valid() && vnodes.Keys == old(vnodes).Keys && Value() == P.AddLinks(old(Value()), i, k)
    {
      hide View;
      ViewHas(base, vnodes, i);
      Update(i, vnodes[i].(nlinks := vnodes[i].nlinks + k));
    }

    method DropLink(i: Ino)
      requires Valid() && i in vnodes && i in Value().nodes
      modifies this`vnodes
      ensures Valid() && vnodes.Keys == old(vnodes).Keys && Value() == P.DropLink(old(Value()), i)
    {
      hide View;
      ViewHas(base, vnodes, i);
      Update(i, vnodes[i].(nlinks := Max(vnodes[i].nlinks - 1, 0)));
    }

    method SetEntry(dir: Ino, name: Name, i: Ino)
      requires Valid() && dir in vnodes && dir in Value().nodes && vnodes[dir].kind == Directory
      modifies this`vnodes
      ensures Valid() && vnodes.Keys == old(vnodes).Keys && Value() == P.SetEntry(old(Value()), dir, name, i)
    {
      hide View;
      var entries := CowDir(dir);
      ViewHas(base, vnodes, dir);
      Update(dir, vnodes[dir].(entries := Some(entries[name := i])));
    }

    method RemoveEntry(dir: Ino, name: Name)
      requires Valid() && dir in vnodes && dir in Value().nodes && vnodes[dir].kind == Directory
      modifies this`vnodes
      ensures Valid() && vnodes.Keys == old(vnodes).Keys && Value() == P.RemoveEntry(old(Value()), dir, name)
    {
      hide View;
      var entries := CowDir(dir);
      ViewHas(base, vnodes, dir);
      Update(dir, vnodes[dir].(entries := Some(entries - {name})));
    }

    method LinkEntry(dir: Ino, name: Name, i: Ino)
      requires Valid() && dir in vnodes && dir in Value().nodes && vnodes[dir].kind == Directory
      requires i in vnodes && i in Value().nodes
      modifies this`vnodes
      ensures Valid() && vnodes.Keys == old(vnodes).Keys && Value() == P.LinkEntry(old(Value()), dir, name, i)
    {
      SetEntry(dir, name, i);
      AddLinks(i, 1);
    }

    /** An inode without links that nobody has open is gone. */
    method DeleteUnused(i: Ino)
      requires Valid() && i in vnodes && i in Value().nodes
      modifies this`vnodes
      ensures Valid() && vnodes.Keys == old(vnodes).Keys
      ensures var n := old(Value()).nodes[i];
        Value() == if n.nlinks == 0 && n.openRefs == 0 then Put(old(Value()), i, n.(deleted := true)) else old(Value())
    {
      hide View;
      ViewHas(base, vnodes, i);
      if vnodes[i].nlinks == 0 && vnodes[i].openRefs == 0 {
        Update(i, vnodes[i].(deleted := true));
      }
    }

    /** The entry exists and leads somewhere, as the callers have found by a lookup. */
    method UnlinkEntry(dir: Ino, name: Name) returns (i: Ino)
      requires Valid() && dir in vnodes && dir in Value().nodes && vnodes[dir].kind == Directory
      requires name in Value().nodes[dir].entries && Value().nodes[dir].entries[name] in Value().nodes
      modifies this`vnodes
      ensures Valid() && old(vnodes).Keys <= vnodes.Keys && i in vnodes
      ensures Value() == P.UnlinkEntry(old(Value()), dir, name) && i == old(Value()).nodes[dir].entries[name]
    {
      hide View, Flat, GoodNode;
      KindSeen(base, vnodes, dir);
      var entries := CowDir(dir);
      i := entries[name];
      var g := Get(i);
      KindSeen(base, vnodes, dir);
      RemoveEntry(dir, name);
      DropLink(i);
      DeleteUnused(i);
    }

    /** A new inode lives in the overlay alone. */
    method NewInode(n: VInode) returns (r: Outcome<Ino>)
      requires Valid() && (n.kind == Directory ==> n.data.None? && n.entries.Some?) && (n.kind != Directory ==> n.data.Some? && n.entries.None?)
      modifies this
      ensures Valid() && old(vnodes).Keys <= vnodes.Keys
      ensures (Value(), r) == P.NewInode(old(Value()), Flat(base, old(nextIno), n))
      ensures r.Ok? ==> r.value in vnodes && r.value in Value().nodes && vnodes[r.value] == n
    {
      var i := nextIno;
      nextIno := nextIno + 1;
      if i > MAX_INO { return Err(ENOSPC); }
      ViewOfUpdate(base, vnodes, i, n);
      vnodes := vnodes[i := n];
      ViewHas(base, vnodes, i);
      r := Ok(i);
    }

    /** create and mknod. */
    method Create(path: Path, kind: Kind, perm: nat, uid: nat, gid: nat, rdev: nat, cwd: Ino, root: Ino) returns (r: Outcome<Ino>)
      requires Valid() && cwd in vnodes && root in vnodes && cwd in Value().nodes && root in Value().nodes && kind != Directory
      modifies this
      ensures Valid() && old(vnodes).Keys <= vnodes.Keys
      ensures (Value(), r) == P.Create(old(Value()), path, FreshNode(kind, perm, uid, gid, rdev), cwd, root)
    {
      hide View, Flat, GoodNode;
      var w := WalkParent(path, cwd, root);
      if w.Err? { return Err(w.errno); }
      var (parent, name) := w.value;
      var l := Lookup(parent, name);
      if l.Err? { return Err(l.errno); }
      if l.value.Some? { return Err(EEXIST); }
      FlatFresh(base, nextIno, kind, perm, uid, gid, rdev, Some([]), None);
      r := NewInode(VInode(kind, perm, uid, gid, rdev, 0, 0, false, Some([]), None));
      if r.Err? { return; }
      KindSeen(base, vnodes, parent);
      LinkEntry(parent, name, r.value);
    }

    method Mkdir(path: Path, perm: nat, uid: nat, gid: nat, cwd: Ino, root: Ino) returns (r: Outcome<Ino>)
      requires Valid() && cwd in vnodes && root in vnodes && cwd in Value().nodes && root in Value().nodes
      modifies this
      ensures Valid() && old(vnodes).Keys <= vnodes.Keys
      ensures (Value(), r) == P.Mkdir(old(Value()), path, perm, uid, gid, cwd, root)
    {
      hide View, Flat, GoodNode;
      var w := WalkParent(path, cwd, root);
      if w.Err? { return Err(w.errno); }
      var (parent, name) := w.value;
      var l := Lookup(parent, name);
      if l.Err? { return Err(l.errno); }
      if l.value.Some? { return Err(EEXIST); }
      FlatFresh(base, nextIno, Directory, perm, uid, gid, 0, None, Some(map[]));
      r := NewInode(VInode(Directory, perm, uid, gid, 0, 0, 0, false, None, Some(map[])));
      if r.Err? { return; }
      var i := r.value;
      SetEntry(i, ".", i);
      AddLinks(i, 1);
      KindSeen(base, vnodes, i);
      SetEntry(i, "..", parent);
      AddLinks(parent, 1);
      KindSeen(base, vnodes, parent);
      LinkEntry(parent, name, i);
    }

    method RmdirAt(parent: Ino, name: Name) returns (r: Outcome<()>)
      requires Valid() && parent in vnodes && parent in Value().nodes
      modifies this`vnodes
      ensures Valid() && old(vnodes).Keys <= vnodes.Keys
      ensures (Value(), r) == P.RmdirAt(old(Value()), parent, name)
    {
      hide View, Flat, GoodNode;
      var l := Lookup(parent, name);
      if l.Err? { return Err(l.errno); }
      if l.value.None? { return Err(ENOENT); }
      var i := l.value.value;
      KindSeen(base, vnodes, i);
      if vnodes[i].kind != Directory { return Err(ENOTDIR); }
      var entries := CowDir(i);
      if !(entries.Keys <= {".", ".."}) { return Err(ENOTEMPTY); }
      KindSeen(base, vnodes, parent);
      var _ := UnlinkEntry(parent, name);
      DropLink(parent);
      MarkRemoved(i);
      r := Ok(());
    }

    method MarkRemoved(i: Ino)
      requires Valid() && i in vnodes && i in Value().nodes
      modifies this`vnodes
      ensures Valid() && vnodes.Keys == old(vnodes).Keys
      ensures Value() == Put(old(Value()), i, old(Value()).nodes[i].(nlinks := 0, deleted := true))
    {
      hide View;
      ViewHas(base, vnodes, i);
      Update(i, vnodes[i].(nlinks := 0, deleted := true));
    }

    method Rmdir(path: Path, cwd: Ino, root: Ino) returns (r: Outcome<()>)
      requires Valid() && cwd in vnodes && root in vnodes && cwd in Value().nodes && root in Value().nodes
      modifies this`vnodes
      ensures Valid() && old(vnodes).Keys <= vnodes.Keys
      ensures (Value(), r) == P.Rmdir(old(Value()), path, cwd, root)
    {
      hide View, Flat, GoodNode;
      var w := WalkParent(path, cwd, root);
      if w.Err? { return Err(w.errno); }
      r := RmdirAt(w.value.0, w.value.1);
    }

    method Unlink(path: Path, cwd: Ino, root: Ino) returns (r: Outcome<()>)
      requires Valid() && cwd in vnodes && root in vnodes && cwd in Value().nodes && root in Value().nodes
      modifies this`vnodes
      ensures Valid() && old(vnodes).Keys <= vnodes.Keys
      ensures (Value(), r) == P.Unlink(old(Value()), path, cwd, root)
    {
      hide View, Flat, GoodNode;
      var w := WalkParent(path, cwd, root);
      if w.Err? { return Err(w.errno); }
      var (parent, name) := w.value;
      var l := Lookup(parent, name);
      if l.Err? { return Err(l.errno); }
      if l.value.None? { return Err(ENOENT); }
      KindSeen(base, vnodes, l.value.value);
      if vnodes[l.value.value].kind == Directory { return Err(EISDIR); }
      KindSeen(base, vnodes, parent);
      var _ := UnlinkEntry(parent, name);
      r := Ok(());
    }

    method Link(oldPath: Path, newPath: Path, cwd: Ino, root: Ino) returns (r: Outcome<()>)
      requires Valid() && cwd in vnodes && root in vnodes && cwd in Value().nodes && root in Value().nodes
      modifies this`vnodes
      ensures Valid() && old(vnodes).Keys <= vnodes.Keys
      ensures (Value(), r) == P.Link(old(Value()), oldPath, newPath, cwd, root)
    {
      hide View, Flat, GoodNode;
      var t := Walk(oldPath.parts, Start(oldPath, cwd, root), root);
      if t.Err? { return Err(t.errno); }
      var i := t.value;
      KindSeen(base, vnodes, i);
      if vnodes[i].kind == Directory { return Err(EPERM); }
      var w := WalkParent(newPath, cwd, root);
      if w.Err? { return Err(w.errno); }
      var (parent, name) := w.value;
      var l := Lookup(parent, name);
      if l.Err? { return Err(l.errno); }
      if l.value.Some? { return Err(EEXIST); }
      KindSeen(base, vnodes, parent);
      LinkEntry(parent, name, i);
      r := Ok(());
    }

    /** rename: the displaced target goes first, then link, unlink and the "..". */
    method Rename(oldPath: Path, newPath: Path, cwd: Ino, root: Ino) returns (r: Outcome<()>)
      requires Valid() && cwd in vnodes && root in vnodes && cwd in Value().nodes && root in Value().nodes
      modifies this`vnodes
      ensures Valid() && old(vnodes).Keys <= vnodes.Keys
      ensures (Value(), r) == P.Rename(old(Value()), oldPath, newPath, cwd, root)
    {
      hide View, Flat, GoodNode, P.RmdirAt, P.UnlinkEntry, P.Move;
      var o := WalkParent(oldPath, cwd, root);
      if o.Err? { return Err(o.errno); }
      var l := Lookup(o.value.0, o.value.1);
      if l.Err? { return Err(l.errno); }
      if l.value.None? { return Err(ENOENT); }
      var i := l.value.value;
      var n := WalkParent(newPath, cwd, root);
      if n.Err? { return Err(n.errno); }
      var x := Lookup(n.value.0, n.value.1);
      if x.Err? { return Err(x.errno); }
      if x.value.Some? {
        if x.value.value == i { return Ok(()); }
        DisplaceKeeps(Value(), n.value.0, n.value.1, x.value.value, o.value.0, o.value.1, i);
        r := Displace(n.value.0, n.value.1, x.value.value);
        if r.Err? { return; }
      }
      Move(o.value.0, o.value.1, n.value.0, n.value.1, i);
      r := Ok(());
    }

    method Displace(dir: Ino, name: Name, x: Ino) returns (r: Outcome<()>)
      requires Valid() && dir in vnodes && dir in Value().nodes && IsDir(Value(), dir) && x in vnodes
      requires name in Value().nodes[dir].entries && Value().nodes[dir].entries[name] == x && x in Value().nodes
      modifies this`vnodes
      ensures Valid() && old(vnodes).Keys <= vnodes.Keys
      ensures (Value(), r) == P.Displace(old(Value()), dir, name)
    {
      hide View, Flat, GoodNode, P.RmdirAt, P.UnlinkEntry;
      KindSeen(base, vnodes, x);
      KindSeen(base, vnodes, dir);
      if vnodes[x].kind == Directory {
        r := RmdirAt(dir, name);
      } else {
        var _ := UnlinkEntry(dir, name);
        r := Ok(());
      }
    }

    method Move(oldParent: Ino, oldName: Name, newParent: Ino, newName: Name, i: Ino)
      requires Valid() && oldParent in vnodes && newParent in vnodes && i in vnodes
      requires IsDir(Value(), oldParent) && IsDir(Value(), newParent) && i in Value().nodes
      requires oldName in Value().nodes[oldParent].entries && Value().nodes[oldParent].entries[oldName] == i
      requires oldParent != newParent || oldName != newName
      modifies this`vnodes
      ensures Valid() && old(vnodes).Keys <= vnodes.Keys
      ensures Value() == P.Move(old(Value()), oldParent, oldName, newParent, newName, i)
    {
      hide View, Flat, GoodNode;
      KindSeen(base, vnodes, newParent);
      LinkEntry(newParent, newName, i);
      KindSeen(base, vnodes, oldParent);
      var _ := UnlinkEntry(oldParent, oldName);
      KindSeen(base, vnodes, i);
      if vnodes[i].kind == Directory && oldParent != newParent {
        SetEntry(i, "..", newParent);
        AddLinks(newParent, 1);
        DropLink(oldParent);
      }
    }

    method Write(i: Ino, offset: nat, data: seq<Byte>) returns (r: Outcome<nat>)
      requires Valid() && i in vnodes && i in Value().nodes
      modifies this`vnodes
      ensures Valid() && vnodes.Keys == old(vnodes).Keys
      ensures (Value(), r) == P.Write(old(Value()), i, offset, data)
    {
      hide View, Splice;
      ViewHas(base, vnodes, i);
      if vnodes[i].kind == Directory { return Err(EISDIR); }
      var buf := CowFile(i);
      ViewHas(base, vnodes, i);
      var grown := buf;
      if offset > |buf| { grown := buf + Zeros(offset - |buf|); }
      var tail := if offset + |data| < |grown| then grown[offset + |data|..] else [];
      SpliceIs(buf, offset, data, grown, tail);
      Update(i, vnodes[i].(data := Some(grown[..offset] + data + tail)));
      r := Ok(|data|);
    }

    method Truncate(i: Ino, size: nat) returns (r: Outcome<()>)
      requires Valid() && i in vnodes && i in Value().nodes
      modifies this`vnodes
      ensures Valid() && vnodes.Keys == old(vnodes).Keys
      ensures (Value(), r) == P.Truncate(old(Value()), i, size)
    {
      hide View;
      ViewHas(base, vnodes, i);
      if vnodes[i].kind == Directory { return Err(EISDIR); }
      var buf := CowFile(i);
      ViewHas(base, vnodes, i);
      var cut := if size < |buf| then buf[..size] else buf + Zeros(size - |buf|);
      Update(i, vnodes[i].(data := Some(cut)));
      r := Ok(());
    }

    /** Reading a file passes through to the image until its first write. */
    method Read(i: Ino, offset: nat, length: nat) returns (r: seq<Byte>)
      requires Valid() && i in vnodes && i in Value().nodes && vnodes[i].kind != Directory
      ensures r == P.Read(Value(), i, offset, length)
    {
      ViewHas(base, vnodes, i);
      if vnodes[i].data.Some? { return Slice(vnodes[i].data.value, offset, length); }
      r := Slice(base[i - 1].content, offset, length);
    }

    /** Opening and closing a file. */
    method Recount(i: Ino, k: int)
      requires Valid() && i in vnodes && i in Value().nodes
      modifies this`vnodes
      ensures Valid() && vnodes.Keys == old(vnodes).Keys && Value() == C.Recount(old(Value()), i, k)
    {
      hide View;
      ViewHas(base, vnodes, i);
      Update(i, vnodes[i].(openRefs := Max(vnodes[i].openRefs + k, 0)));
    }

    /** An operation on an inode by its number. */
    method OnNode(op: C.Op) returns (r: C.Reply)
      requires Valid() && (op.Contents? || op.Resize? || op.Opened? || op.Closed?)
      modifies this`vnodes
      ensures Valid() && (Value(), r) == C.OnNode(old(Value()), op)
    {
      hide View, P.Write, P.Truncate;
      var g := Get(op.i);
      if g.Err? { return Err(g.errno); }
      match op
      case Contents(i, offset, data) => r := Write(i, offset, data);
      case Resize(i, size) =>
        var t := Truncate(i, size);
        r := C.Plain(t);
      case Opened(i) =>
        Recount(i, 1);
        r := Ok(0);
      case Closed(i) =>
        Recount(i, -1);
        r := Ok(0);
    }

    /** One operation issued by some process: its reply and its effect are those of the plain store. */
    method Do(o: C.Issued) returns (r: C.Reply)
      requires Valid() && o.cwd in Value().nodes && o.top in Value().nodes && C.Proper(o)
      modifies this
      ensures Valid() && (Value(), r) == C.Perform(old(Value()), o)
    {
      hide View, P.Create, P.Mkdir, P.Rmdir, P.Unlink, P.Link, P.Rename, C.OnNode;
      var _ := Get(o.cwd);
      var _ := Get(o.top);
      match o.op
      case MakeNode(path, n) =>
        NodeIsFresh(n);
        r := Create(path, n.kind, n.perm, n.uid, n.gid, n.rdev, o.cwd, o.top);
      case MakeDir(path, perm, uid, gid) => r := Mkdir(path, perm, uid, gid, o.cwd, o.top);
      case RemoveDirectory(path) =>
        var t := Rmdir(path, o.cwd, o.top);
        r := C.Plain(t);
      case Remove(path) =>
        var t := Unlink(path, o.cwd, o.top);
        r := C.Plain(t);
      case HardLink(p, q) =>
        var t := Link(p, q, o.cwd, o.top);
        r := C.Plain(t);
      case Relocate(p, q) =>
        var t := Rename(p, q, o.cwd, o.top);
        r := C.Plain(t);
      case _ => r := OnNode(o.op);
    }

    /** Any sequence of operations gives the replies, and leaves the view, that a plain store gives and leaves. If
        the store was consistent and no entry is made or taken in a removed directory, it ends consistent, with
        every link count exact. */
    method DoAll(ops: seq<C.Issued>) returns (replies: seq<C.Reply>)
      requires Valid() && C.AllPlaced(Value(), ops)
      modifies this
      ensures Valid() && (Value(), replies) == C.PerformAll(old(Value()), ops)
      ensures forall root :: C.Linked(old(Value()), root) && C.AllIssued(old(Value()), ops) ==> C.Linked(Value(), root)
    {
      hide View, C.Linked, C.Perform, C.Proper, C.AllIssued;
      ghost var st := Value();
      replies := [];
      assert ops[0..] == ops && [] + C.PerformAll(st, ops).1 == C.PerformAll(st, ops).1;
      for k := 0 to |ops|
        invariant Valid() && C.AllPlaced(Value(), ops[k..]) && |replies| == k
        invariant C.PerformAll(st, ops) == (C.PerformAll(Value(), ops[k..]).0, replies + C.PerformAll(Value(), ops[k..]).1)
      {
        assert ops[k..][0] == ops[k] && ops[k..][1..] == ops[k + 1..];
        ghost var before := Value();
        var r := Do(ops[k]);
        AllUnfolds(before, ops[k..]);
        assert replies + ([r] + C.PerformAll(Value(), ops[k + 1..]).1) == (replies + [r]) + C.PerformAll(Value(), ops[k + 1..]).1;
        replies := replies + [r];
      }
      assert ops[|ops|..] == [] && replies + [] == replies;
      forall root | C.Linked(st, root) && C.AllIssued(st, ops) ensures C.Linked(Value(), root) {
        C.CountsExact(st, ops, root);
      }
    }
  }

  lemma AllUnfolds(st: Store, ops: seq<C.Issued>)
    requires |ops| > 0 && C.AllPlaced(st, ops)
    ensures ops[0].cwd in st.nodes && ops[0].top in st.nodes
    ensures var (st1, r) := C.Perform(st, ops[0]);
      && C.AllPlaced(st1, ops[1..])
      && C.PerformAll(st, ops) == (C.PerformAll(st1, ops[1..]).0, [r] + C.PerformAll(st1, ops[1..]).1)
  {
    hide C.Perform, C.Proper;
  }

  lemma FlatFresh(base: Image, i: Ino, kind: Kind, perm: nat, uid: nat, gid: nat, rdev: nat,
                  data: Option<seq<Byte>>, entries: Option<map<Name, Ino>>)
    requires i > |base|
    requires if kind == Directory then data == None && entries == Some(map[]) else data == Some([]) && entries == None
    ensures Flat(base, i, VInode(kind, perm, uid, gid, rdev, 0, 0, false, data, entries)) == FreshNode(kind, perm, uid, gid, rdev)
  {
  }

  lemma KindSeen(base: Image, vnodes: map<Ino, VInode>, i: Ino)
    requires i in vnodes
    ensures i in View(base, vnodes) && View(base, vnodes)[i].kind == vnodes[i].kind
  {
  }

  lemma SpliceIs(buf: seq<Byte>, offset: nat, data: seq<Byte>, grown: seq<Byte>, tail: seq<Byte>)
    requires grown == if offset > |buf| then buf + Zeros(offset - |buf|) else buf
    requires tail == if offset + |data| < |grown| then grown[offset + |data|..] else []
    ensures Splice(buf, offset, data) == grown[..offset] + data + tail
  {
    assert buf + Zero(offset - |buf|) == grown;
  }

  /** Making room for a rename leaves the directory and the entry moved from, and the moved inode. */
  lemma DisplaceKeeps(st: Store, dir: Ino, name: Name, x: Ino, oldParent: Ino, oldName: Name, i: Ino)
    requires IsDir(st, dir) && name in st.nodes[dir].entries && st.nodes[dir].entries[name] == x && x in st.nodes
    requires IsDir(st, oldParent) && oldName in st.nodes[oldParent].entries && st.nodes[oldParent].entries[oldName] == i
    requires i in st.nodes && x != i
    ensures var st' := P.Displace(st, dir, name).0;
      && IsDir(st', oldParent) && IsDir(st', dir) && i in st'.nodes && (oldParent != dir || oldName != name)
      && oldName in st'.nodes[oldParent].entries && st'.nodes[oldParent].entries[oldName] == i
  {
  }

  lemma NodeIsFresh(n: Node)
    ensures n == FreshNode(n.kind, n.perm, n.uid, n.gid, n.rdev)
      <==> n.nlinks == 0 && n.openRefs == 0 && !n.deleted && n.data == [] && n.entries == map[]
  {
  }
}
