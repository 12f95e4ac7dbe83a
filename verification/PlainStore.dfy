/** A plain in-memory inode store with the operations of the file layer (kvfs.py) and no copy-on-write:
    the reference the overlay is compared with. */
module PlainStore {
  import opened Words

  const EPERM: int := 1
  const ENOENT: int := 2
  const EBUSY: int := 16
  const EEXIST: int := 17
  const ENOTDIR: int := 20
  const EISDIR: int := 21
  const EINVAL: int := 22
  const ENOSPC: int := 28
  const ENOTEMPTY: int := 39

  const NAME_LEN: nat := 14
  const MAX_INO: nat := 0xFFFF

  type Ino = nat
  type Name = string

  datatype Kind = Directory | Regular | Device | Fifo

  datatype Node = Node(kind: Kind, perm: nat, uid: nat, gid: nat, rdev: nat, nlinks: int, openRefs: int,
                       deleted: bool, data: seq<Byte>, entries: map<Name, Ino>)

  datatype Store = Store(nodes: map<Ino, Node>, next: Ino)

  datatype Outcome<+T> = Ok(value: T) | Err(errno: int)
  {
    predicate IsFailure() { Err? }
    function PropagateFailure<U>(): Outcome<U> requires Err? { Err(errno) }
    function Extract(): T requires Ok? { value }
  }

  /** A path split at its slashes; parts may be empty or ".". */
  datatype Path = Path(absolute: bool, parts: seq<Name>)

  predicate IsDir(st: Store, i: Ino) {
    i in st.nodes && st.nodes[i].kind == Directory
  }

  // ---- Lookup -----------------------------------------------------------------------

  /** The inode a name leads to; entries may dangle in a damaged image. */
  function Lookup(st: Store, dir: Ino, name: Name): (r: Outcome<Option<Ino>>)
    requires dir in st.nodes
    ensures r.Ok? && r.value.Some? ==>
      IsDir(st, dir) && name in st.nodes[dir].entries && st.nodes[dir].entries[name] == r.value.value && r.value.value in st.nodes
    ensures r.Ok? && r.value.None? ==> IsDir(st, dir) && name !in st.nodes[dir].entries
  {
    var d := st.nodes[dir];
    if d.kind != Directory then Err(ENOTDIR)
    else if name !in d.entries then Ok(None)
    else if d.entries[name] in st.nodes then Ok(Some(d.entries[name]))
    else Err(ENOENT)
  }

  /** Walking parts; ".." does not leave the root. */
  function Walk(st: Store, parts: seq<Name>, cur: Ino, root: Ino): (r: Outcome<Ino>)
    requires cur in st.nodes
    ensures r.Ok? ==> r.value in st.nodes
    decreases |parts|
  {
    if |parts| == 0 then Ok(cur)
    else
      var part := parts[0];
      if part == "" || part == "." then Walk(st, parts[1..], cur, root)
      else if !IsDir(st, cur) then Err(ENOTDIR)
      else if part == ".." && cur == root then Walk(st, parts[1..], cur, root)
      else
        var next :- Lookup(st, cur, part);
        if next.None? then Err(ENOENT) else Walk(st, parts[1..], next.value, root)
  }

  function Start(path: Path, cwd: Ino, root: Ino): Ino {
    if path.absolute then root else cwd
  }

  /** Without the empty parts that trailing slashes leave. */
  function Trim(parts: seq<Name>): (r: seq<Name>)
    ensures r <= parts && (|r| > 0 ==> r[|r| - 1] != "")
    decreases |parts|
  {
    if |parts| > 0 && parts[|parts| - 1] == "" then Trim(parts[..|parts| - 1]) else parts
  }

  /** The directory an entry is to be made in or taken from, and its name. */
  function WalkParent(st: Store, path: Path, cwd: Ino, root: Ino): (r: Outcome<(Ino, Name)>)
    requires cwd in st.nodes && root in st.nodes
    ensures r.Ok? ==> IsDir(st, r.value.0) && r.value.1 != "." && r.value.1 != ".."
  {
    var parts := Trim(path.parts);
    if |parts| == 0 then Err(EBUSY)
    else
      var parent :- Walk(st, parts[..|parts| - 1], Start(path, cwd, root), root);
      var name := parts[|parts| - 1];
      if !IsDir(st, parent) then Err(ENOTDIR)
      else if name == "." || name == ".." then Err(EINVAL)
      else Ok((parent, Cut(name)))
  }

  /** Names are cut to the length of a directory entry. */
  function Cut(name: Name): (r: Name)
    ensures name != "." && name != ".." ==> r != "." && r != ".."
  {
    if |name| > NAME_LEN then name[..NAME_LEN] else name
  }

  // ---- Entries ---------------------------------------------------------------------------

  function Put(st: Store, i: Ino, n: Node): Store {
    st.(nodes := st.nodes[i := n])
  }

  function AddLinks(st: Store, i: Ino, k: int): Store
    requires i in st.nodes
  {
    Put(st, i, st.nodes[i].(nlinks := st.nodes[i].nlinks + k))
  }

  /** Counting down stops at zero. */
  function DropLink(st: Store, i: Ino): Store
    requires i in st.nodes
  {
    Put(st, i, st.nodes[i].(nlinks := Max(st.nodes[i].nlinks - 1, 0)))
  }

  function SetEntry(st: Store, dir: Ino, name: Name, i: Ino): Store
    requires dir in st.nodes
  {
    Put(st, dir, st.nodes[dir].(entries := st.nodes[dir].entries[name := i]))
  }

  function RemoveEntry(st: Store, dir: Ino, name: Name): Store
    requires dir in st.nodes
  {
    Put(st, dir, st.nodes[dir].(entries := st.nodes[dir].entries - {name}))
  }

  function LinkEntry(st: Store, dir: Ino, name: Name, i: Ino): Store
    requires dir in st.nodes && i in st.nodes
  {
    AddLinks(SetEntry(st, dir, name, i), i, 1)
  }

  /** The last link of an inode nobody has open deletes it. */
  function UnlinkEntry(st: Store, dir: Ino, name: Name): Store
    requires dir in st.nodes && name in st.nodes[dir].entries && st.nodes[dir].entries[name] in st.nodes
  {
    var i := st.nodes[dir].entries[name];
    var st1 := DropLink(RemoveEntry(st, dir, name), i);
    var v := st1.nodes[i];
    if v.nlinks == 0 && v.openRefs == 0 then Put(st1, i, v.(deleted := true)) else st1
  }

  // ---- Operations ---------------------------------------------------------------------------

  /** A fresh inode number; when they run out the counter still moves. */
  function NewInode(st: Store, n: Node): (Store, Outcome<Ino>) {
    if st.next > MAX_INO then (st.(next := st.next + 1), Err(ENOSPC))
    else (Store(st.nodes[st.next := n], st.next + 1), Ok(st.next))
  }

  function FreshNode(kind: Kind, perm: nat, uid: nat, gid: nat, rdev: nat): Node {
    Node(kind, perm, uid, gid, rdev, 0, 0, false, [], map[])
  }

  /** create (regular files) and mknod (devices and fifos). */
  function Create(st: Store, path: Path, n: Node, cwd: Ino, root: Ino): (Store, Outcome<Ino>)
    requires cwd in st.nodes && root in st.nodes
  {
    match WalkParent(st, path, cwd, root)
    case Err(e) => (st, Err(e))
    case Ok((parent, name)) =>
      match Lookup(st, parent, name)
      case Err(e) => (st, Err(e))
      case Ok(Some(_)) => (st, Err(EEXIST))
      case Ok(None) =>
        var (st1, r) := NewInode(st, n);
        if r.Err? then (st1, r) else (LinkEntry(st1, parent, name, r.value), r)
  }

  /** A directory comes with "." and "..", each counted. */
  function Mkdir(st: Store, path: Path, perm: nat, uid: nat, gid: nat, cwd: Ino, root: Ino): (Store, Outcome<Ino>)
    requires cwd in st.nodes && root in st.nodes
  {
    match WalkParent(st, path, cwd, root)
    case Err(e) => (st, Err(e))
    case Ok((parent, name)) =>
      match Lookup(st, parent, name)
      case Err(e) => (st, Err(e))
      case Ok(Some(_)) => (st, Err(EEXIST))
      case Ok(None) =>
        var (st1, r) := NewInode(st, FreshNode(Directory, perm, uid, gid, 0));
        if r.Err? then (st1, r)
        else
          var st2 := AddLinks(SetEntry(st1, r.value, ".", r.value), r.value, 1);
          var st3 := AddLinks(SetEntry(st2, r.value, "..", parent), parent, 1);
          (LinkEntry(st3, parent, name, r.value), r)
  }

  predicate IsEmptyDir(n: Node) {
    n.entries.Keys <= {".", ".."}
  }

  /** Removing the empty directory v under (parent, name). */
  function RemoveDir(st: Store, parent: Ino, name: Name, v: Ino): Store
    requires parent in st.nodes && v in st.nodes && name in st.nodes[parent].entries && st.nodes[parent].entries[name] == v
  {
    var st1 := DropLink(UnlinkEntry(st, parent, name), parent);
    Put(st1, v, st1.nodes[v].(nlinks := 0, deleted := true))
  }

  function Rmdir(st: Store, path: Path, cwd: Ino, root: Ino): (Store, Outcome<()>)
    requires cwd in st.nodes && root in st.nodes
  {
    match WalkParent(st, path, cwd, root)
    case Err(e) => (st, Err(e))
    case Ok((parent, name)) => RmdirAt(st, parent, name)
  }

  function RmdirAt(st: Store, parent: Ino, name: Name): (Store, Outcome<()>)
    requires parent in st.nodes
  {
    match Lookup(st, parent, name)
    case Err(e) => (st, Err(e))
    case Ok(None) => (st, Err(ENOENT))
    case Ok(Some(v)) =>
      if !IsDir(st, v) then (st, Err(ENOTDIR))
      else if !IsEmptyDir(st.nodes[v]) then (st, Err(ENOTEMPTY))
      else (RemoveDir(st, parent, name, v), Ok(()))
  }

  function Unlink(st: Store, path: Path, cwd: Ino, root: Ino): (Store, Outcome<()>)
    requires cwd in st.nodes && root in st.nodes
  {
    match WalkParent(st, path, cwd, root)
    case Err(e) => (st, Err(e))
    case Ok((parent, name)) =>
      match Lookup(st, parent, name)
      case Err(e) => (st, Err(e))
      case Ok(None) => (st, Err(ENOENT))
      case Ok(Some(v)) => if IsDir(st, v) then (st, Err(EISDIR)) else (UnlinkEntry(st, parent, name), Ok(()))
  }

  function Link(st: Store, oldPath: Path, newPath: Path, cwd: Ino, root: Ino): (Store, Outcome<()>)
    requires cwd in st.nodes && root in st.nodes
  {
    match Walk(st, oldPath.parts, Start(oldPath, cwd, root), root)
    case Err(e) => (st, Err(e))
    case Ok(v) =>
      if IsDir(st, v) then (st, Err(EPERM))
      else
        match WalkParent(st, newPath, cwd, root)
        case Err(e) => (st, Err(e))
        case Ok((parent, name)) =>
          match Lookup(st, parent, name)
          case Err(e) => (st, Err(e))
          case Ok(Some(_)) => (st, Err(EEXIST))
          case Ok(None) => (LinkEntry(st, parent, name, v), Ok(()))
  }

  /** Making room for a rename: whatever has the new name goes. */
  function Displace(st: Store, parent: Ino, name: Name): (Store, Outcome<()>)
    requires parent in st.nodes && name in st.nodes[parent].entries && st.nodes[parent].entries[name] in st.nodes
  {
    if IsDir(st, st.nodes[parent].entries[name]) then RmdirAt(st, parent, name)
    else (UnlinkEntry(st, parent, name), Ok(()))
  }

  /** The move proper: link, unlink, and the ".." of a directory that changes its parent. */
  function Move(st: Store, oldParent: Ino, oldName: Name, newParent: Ino, newName: Name, v: Ino): Store
    requires oldParent in st.nodes && newParent in st.nodes && v in st.nodes
    requires oldName in st.nodes[oldParent].entries && st.nodes[oldParent].entries[oldName] == v
    requires oldParent != newParent || oldName != newName
  {
    var st1 := LinkEntry(st, newParent, newName, v);
    var st2 := UnlinkEntry(st1, oldParent, oldName);
    if IsDir(st, v) && oldParent != newParent then
      var st3 := SetEntry(st2, v, "..", newParent);
      DropLink(AddLinks(st3, newParent, 1), oldParent)
    else st2
  }

  function Rename(st: Store, oldPath: Path, newPath: Path, cwd: Ino, root: Ino): (Store, Outcome<()>)
    requires cwd in st.nodes && root in st.nodes
  {
    match WalkParent(st, oldPath, cwd, root)
    case Err(e) => (st, Err(e))
    case Ok((oldParent, oldName)) =>
      match Lookup(st, oldParent, oldName)
      case Err(e) => (st, Err(e))
      case Ok(None) => (st, Err(ENOENT))
      case Ok(Some(v)) =>
        match WalkParent(st, newPath, cwd, root)
        case Err(e) => (st, Err(e))
        case Ok((newParent, newName)) =>
          match Lookup(st, newParent, newName)
          case Err(e) => (st, Err(e))
          case Ok(Some(x)) =>
            if x == v then (st, Ok(()))
            else
              var (st1, r) := Displace(st, newParent, newName);
              if r.Err? then (st1, r) else RenameOver(st1, oldParent, oldName, newParent, newName, v)
          case Ok(None) => RenameOver(st, oldParent, oldName, newParent, newName, v)
  }

  /** The move, in a store where the new name is free. */
  function RenameOver(st: Store, oldParent: Ino, oldName: Name, newParent: Ino, newName: Name, v: Ino): (Store, Outcome<()>) {
    if oldParent in st.nodes && newParent in st.nodes && v in st.nodes && (oldParent != newParent || oldName != newName)
       && oldName in st.nodes[oldParent].entries && st.nodes[oldParent].entries[oldName] == v
    then (Move(st, oldParent, oldName, newParent, newName, v), Ok(()))
    else (st, Err(ENOENT))
  }

  // ---- Contents ---------------------------------------------------------------------------------

  function Zero(n: int): (z: seq<Byte>)
  {
    Zeros(if n > 0 then n else 0)
  }

  /** Overwriting at an offset; a gap reads as zeros. */
  function Splice(old_: seq<Byte>, offset: nat, data: seq<Byte>): (r: seq<Byte>)
    ensures |r| == Max(|old_|, offset + |data|)
  {
    var padded := old_ + Zero(offset - |old_|);
    padded[..offset] + data + (if offset + |data| < |padded| then padded[offset + |data|..] else [])
  }

  function Write(st: Store, i: Ino, offset: nat, data: seq<Byte>): (Store, Outcome<nat>)
    requires i in st.nodes
  {
    var n := st.nodes[i];
    if n.kind == Directory then (st, Err(EISDIR))
    else (Put(st, i, n.(data := Splice(n.data, offset, data))), Ok(|data|))
  }

  function Truncate(st: Store, i: Ino, size: nat): (Store, Outcome<()>)
    requires i in st.nodes
  {
    var n := st.nodes[i];
    if n.kind == Directory then (st, Err(EISDIR))
    else (Put(st, i, n.(data := if size < |n.data| then n.data[..size] else n.data + Zeros(size - |n.data|))), Ok(()))
  }

  function Slice(s: seq<Byte>, offset: nat, length: nat): seq<Byte> {
    if offset >= |s| then [] else s[offset..Min(offset + length, |s|)]
  }

  /** Reading a file; the raw bytes of directories are not part of the model. */
  function Read(st: Store, i: Ino, offset: nat, length: nat): seq<Byte>
    requires i in st.nodes
  {
    Slice(st.nodes[i].data, offset, length)
  }

  /** What reads see after a write: the new bytes, the old ones elsewhere, zeros in a gap. */
  lemma ReadAfterWrite(s: seq<Byte>, offset: nat, data: seq<Byte>, x: nat)
    requires x < |Splice(s, offset, data)|
    ensures Splice(s, offset, data)[x] ==
      if offset <= x < offset + |data| then data[x - offset] else if x < |s| then s[x] else 0
  {
  }
}
