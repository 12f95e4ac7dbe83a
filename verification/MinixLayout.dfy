/** The layout of an image, read from its other side: numbers, directories and bitmaps that are written as the format
    says are read back as what they were (minixfs.py). */
module MinixLayout {
  import opened Words
  import opened MinixMap
  import opened MinixCheck
  import Shifting
  import W = MinixWalk

  // ---- Zone numbers in indirect blocks -------------------------------------------------------

  /** The number z stands in slot j of block b: two bytes, the lower first. */
  predicate Holds(d: Disk, b: Zone, j: nat, z: Zone)
    requires j < 512
  {
    0 < b < |d.blocks| && d.blocks[b][2 * j..2 * j + 2] == Bytes(z, 2)
  }

  lemma HeldIsRead(d: Disk, b: Zone, j: nat, z: Zone)
    requires j < 512 && z < 0x1_0000 && Holds(d, b, j, z)
    ensures Ptr(ReadBlock(d, b), j) == z
  {
    assert d.blocks[b][2 * j..2 * j + 2][0] == d.blocks[b][2 * j];
    assert d.blocks[b][2 * j..2 * j + 2][1] == d.blocks[b][2 * j + 1];
  }

  /** The first seven blocks are named by the inode; the next 512 by its indirect block; the others through the
      double indirect block, 512 to a block. An indirect block that is missing leaves holes. */
  lemma ZoneExact(d: Disk, f: Inode, i: nat, j: nat, k: nat, ind: Zone, z: Zone)
    requires |f.zones| == 9 && j < 512 && k < 512 && ind < 0x1_0000 && z < 0x1_0000
    ensures i < 7 ==> ZoneAt(d, f, i) == Some(f.zones[i])
    ensures f.zones[7] == 0 ==> ZoneAt(d, f, 7 + j) == Some(0)
    ensures f.zones[7] != 0 && Holds(d, f.zones[7], j, z) ==> ZoneAt(d, f, 7 + j) == Some(z)
    ensures f.zones[8] == 0 ==> ZoneAt(d, f, 519 + 512 * j + k) == Some(0)
    ensures f.zones[8] != 0 && Holds(d, f.zones[8], j, 0) ==> ZoneAt(d, f, 519 + 512 * j + k) == Some(0)
    ensures f.zones[8] != 0 && Holds(d, f.zones[8], j, ind) && ind != 0 && Holds(d, ind, k, z) ==>
      ZoneAt(d, f, 519 + 512 * j + k) == Some(z)
    ensures ZoneAt(d, f, 519 + 512 * 512 + i) == None
  {
    hide Ptr, ReadBlock;
    LowerZone(d, f, j, k);
    if f.zones[7] != 0 && Holds(d, f.zones[7], j, z) { HeldIsRead(d, f.zones[7], j, z); }
    if f.zones[8] != 0 && Holds(d, f.zones[8], j, 0) { HeldIsRead(d, f.zones[8], j, 0); }
    if f.zones[8] != 0 && Holds(d, f.zones[8], j, ind) { HeldIsRead(d, f.zones[8], j, ind); }
    if Holds(d, ind, k, z) { HeldIsRead(d, ind, k, z); }
  }

  /** A byte of a file is the byte of its block; in a hole, and in a block behind the end of the image, it is zero. */
  lemma ByteExact(d: Disk, f: Inode, block: nat, off: nat, z: Zone)
    requires |f.zones| == 9 && off < 1024 && ZoneAt(d, f, block) == Some(z) && Addressable((block + 1) * 1024)
    ensures block * 1024 + off < MAX_BLOCKS * BLOCK_SIZE
    ensures ByteAtPos(d, f, block * 1024 + off) == if 0 < z < |d.blocks| then d.blocks[z][off] else 0
  {
    hide ZoneAt;
    InBlock(block * 1024 + off, block);
  }

  // ---- Directories ------------------------------------------------------------------------------

  /** An entry as it stands in a directory: the inode number, the name, and NULs to the entry size. */
  function Slot(e: Entry, size: nat): (s: seq<Byte>)
    requires |e.1| + 2 <= size
    ensures |s| == size
  {
    Bytes(e.0, 2) + e.1 + Zeros(size - 2 - |e.1|)
  }

  predicate Writable(e: Entry, size: nat) {
    e.0 < 0x1_0000 && |e.1| + 2 <= size && forall i :: 0 <= i < |e.1| ==> e.1[i] != 0
  }

  function Written(es: seq<Entry>, size: nat): (raw: seq<Byte>)
    requires forall i :: 0 <= i < |es| ==> Writable(es[i], size)
    ensures |raw| == |es| * size
  {
    if |es| == 0 then []
    else
      assert Writable(es[|es| - 1], size);
      Written(es[..|es| - 1], size) + Slot(es[|es| - 1], size)
  }

  /** The entries in use. */
  function Used(es: seq<Entry>): seq<Entry> {
    if |es| == 0 then []
    else Used(es[..|es| - 1]) + if es[|es| - 1].0 != 0 then [es[|es| - 1]] else []
  }

  lemma {:induction false} NameStops(name: seq<Byte>, pad: nat)
    requires forall i :: 0 <= i < |name| ==> name[i] != 0
    ensures UpToNul(name + Zeros(pad)) == name
  {
    if |name| > 0 {
      assert (name + Zeros(pad))[1..] == name[1..] + Zeros(pad);
      NameStops(name[1..], pad);
    }
  }

  lemma SlotExact(raw: seq<Byte>, size: nat, k: nat, e: Entry)
    requires Writable(e, size) && (k + 1) * size <= |raw| && raw[k * size..(k + 1) * size] == Slot(e, size)
    ensures SlotAt(raw, size, k) == e
  {
    hide UpToNul;
    var s := raw[k * size..(k + 1) * size];
    assert (k + 1) * size == k * size + size;
    assert s[0] == raw[k * size] && s[1] == raw[k * size + 1];
    assert s[2..] == raw[k * size + 2..(k + 1) * size];
    assert s[2..] == e.1 + Zeros(size - 2 - |e.1|);
    NameStops(e.1, size - 2 - |e.1|);
  }

  /** A directory that is written entry by entry is listed as its used entries, in order. */
  lemma {:induction false} DirectoryRoundTrip(es: seq<Entry>, size: nat, more: seq<Byte>)
    requires size >= 2 && forall i :: 0 <= i < |es| ==> Writable(es[i], size)
    ensures |es| * size <= |Written(es, size) + more| && Slots(Written(es, size) + more, size, |es|) == Used(es)
    decreases |es|
  {
    hide SlotAt, Slot;
    if |es| > 0 {
      var n := |es| - 1;
      assert Writable(es[n], size);
      var last := Slot(es[n], size);
      assert (n + 1) * size == n * size + size;
      assert Written(es, size) + more == Written(es[..n], size) + (last + more);
      DirectoryRoundTrip(es[..n], size, last + more);
      var raw := Written(es, size) + more;
      assert raw[n * size..(n + 1) * size] == last;
      SlotExact(raw, size, n, es[n]);
    }
  }

  // ---- Bitmaps -----------------------------------------------------------------------------------------

  /** The numbers base, base + 1, ... of a set as bits, the first the lowest. */
  function Packed(s: set<nat>, base: nat, n: nat): (v: nat)
    ensures v < Pow2(n)
    decreases n
  {
    if n == 0 then 0 else (if base in s then 1 else 0) + 2 * Packed(s, base + 1, n - 1)
  }

  /** A bitmap of so many bytes, eight numbers to a byte. */
  function Bitmap(s: set<nat>, bytes: nat): (m: seq<Byte>)
    ensures |m| == bytes
  {
    seq(bytes, j requires 0 <= j < bytes => PackedByte(s, j))
  }

  function PackedByte(s: set<nat>, j: nat): Byte {
    assert Pow2(8) == 0x100;
    Packed(s, 8 * j, 8)
  }

  lemma {:induction false} PackedBit(s: set<nat>, base: nat, n: nat, i: nat)
    requires i < n
    ensures Packed(s, base, n) / Pow2(i) % 2 == if base + i in s then 1 else 0
    decreases n
  {
    var rest := Packed(s, base + 1, n - 1);
    if i > 0 {
      PackedBit(s, base + 1, n - 1, i - 1);
      assert Packed(s, base, n) / 2 == rest;
      Shifting.ThroughHalf(Packed(s, base, n), Pow2(i - 1));
    }
  }

  /** An inode is marked if and only if it is in the set the map was made from; bit 0 of the zone map stands for no
      zone, bit 1 for the first data zone. */
  lemma MarksExact(d: Disk, inodes: set<nat>, zones: set<Zone>, i: Ino, z: Zone)
    requires Usable(d) && d.inodeMap == Bitmap(inodes, |d.inodeMap|)
    requires d.zoneMap == Bitmap(set x | x in zones && x >= d.firstData :: x - d.firstData + 1, |d.zoneMap|)
    ensures 1 <= i <= |d.inodes| ==> (Marked(d, i) <==> i in inodes)
    ensures d.firstData <= z < d.nzones ==> (ZoneMarked(d, z) <==> z in zones)
  {
    hide Packed;
    if 1 <= i <= |d.inodes| { BitExact(inodes, |d.inodeMap|, i); }
    if d.firstData <= z < d.nzones {
      var bits := set x | x in zones && x >= d.firstData :: x - d.firstData + 1;
      BitExact(bits, |d.zoneMap|, z - d.firstData + 1);
      assert z - d.firstData + 1 in bits <==> z in zones;
    }
  }

  lemma BitExact(s: set<nat>, bytes: nat, n: nat)
    requires n / 8 < bytes
    ensures BitSet(Bitmap(s, bytes), n) <==> n in s
  {
    hide Packed;
    PackedBit(s, 8 * (n / 8), 8, n % 8);
  }

  // ---- What the check asks, in plain terms ------------------------------------------------------------

  lemma {:induction false} LowerMetaExact(b: Block, n: nat, z: Zone)
    requires n <= PER_BLOCK
    ensures z in LowerMeta(b, n) <==> z != 0 && exists j :: 0 <= j < n && Ptr(b, j) == z
  {
    hide Ptr;
    if n > 0 { LowerMetaExact(b, n - 1, z); }
  }

  /** The indirect blocks of a file: those the inode names, and those the double indirect block names. */
  lemma IndirectExact(d: Disk, f: Inode, z: Zone)
    requires |f.zones| == 9
    ensures z in Meta(d, f) <==>
      && z != 0
      && (z == f.zones[7] || z == f.zones[8]
          || (f.zones[8] != 0 && d.firstData <= f.zones[8] < d.nzones
              && exists j :: 0 <= j < 512 && Ptr(ReadBlock(d, f.zones[8]), j) == z))
  {
    hide Ptr, ReadBlock;
    LowerMetaExact(ReadBlock(d, f.zones[8]), PER_BLOCK, z);
  }

  lemma SecondsHas(data: seq<(nat, Zone)>, z: Zone)
    ensures z in Seconds(data) <==> exists i: nat :: (i, z) in data
  {
    if z in Seconds(data) {
      var k :| 0 <= k < |data| && Seconds(data)[k] == z;
      assert (data[k].0, z) in data;
    }
    if i: nat :| (i, z) in data {
      var k :| 0 <= k < |data| && data[k] == (i, z);
      assert Seconds(data)[k] == z;
    }
  }

  /** The zones an inode uses, its indirect blocks being in range: those of its blocks, and the indirect blocks;
      none if it is a device or a fifo. */
  lemma UsesExact(d: Disk, v: Ino, z: Zone)
    requires d.Valid() && 1 <= v <= |d.inodes| && IndirectsInRange(d, d.inodes[v - 1])
    ensures var f := d.inodes[v - 1];
      Uses(d, v, z) <==>
        && f.kind != CharType && f.kind != BlockType && f.kind != FifoType && z != 0
        && ((exists i :: 0 <= i < MAX_BLOCKS && ZoneAt(d, f, i) == Some(z)) || z in Meta(d, f))
  {
    hide Meta, Data, ZoneAt, Mapped, IndirectsInRange;
    var f := d.inodes[v - 1];
    EnumerationIsMap(d, f);
    SecondsHas(Data(d, f), z);
    forall i: nat ensures (i, z) in Data(d, f) <==> i < MAX_BLOCKS && z != 0 && ZoneAt(d, f, i) == Some(z) {
      MappedMembers(d, f, 0, MAX_BLOCKS, i, z);
    }
    IndirectExact(d, f, z);
  }

  /** An inode is healthy if and only if it is marked and of a known kind, its zones are marked data zones and
      different from each other, and, unless it is a device or a fifo, block i is mapped just when some byte of the
      file lies in it, and the size of a directory is a multiple of the entry size. */
  lemma HealthExact(d: Disk, v: Ino)
    requires Usable(d) && 1 <= v <= |d.inodes|
    ensures var f := d.inodes[v - 1];
      Healthy(d, v) <==>
        && BitSet(d.inodeMap, v) && f.kind != UnknownType
        && (forall k :: 0 <= k < |ZonesOf(d, f)| ==>
              var z := ZonesOf(d, f)[k];
              d.firstData <= z < d.nzones && BitSet(d.zoneMap, z - d.firstData + 1) && forall l :: 0 <= l < k ==> ZonesOf(d, f)[l] != z)
        && (f.kind == CharType || f.kind == BlockType || f.kind == FifoType
            || (f.size <= MAX_BLOCKS * 1024
                && (forall i :: 0 <= i < MAX_BLOCKS ==> (ZoneAt(d, f, i) != Some(0) <==> i * 1024 < f.size))
                && (f.kind == DirType ==> exists n: nat :: f.size == n * d.direntSize)))
  {
    hide ZonesOf, ZoneAt, BitSet;
    var f := d.inodes[v - 1];
    BlocksOf(f);
    SlotsDivide(f.size, d.direntSize);
  }

  lemma BlocksOf(f: Inode)
    ensures Expected(f) <= MAX_BLOCKS <==> f.size <= MAX_BLOCKS * 1024
    ensures forall i: nat :: i < Expected(f) <==> i * 1024 < f.size
  {
  }

  lemma SlotsDivide(size: nat, n: nat)
    requires n > 0
    ensures size % n == 0 <==> exists k: nat :: size == k * n
  {
    if size % n == 0 { assert size == size / n * n; }
    if k: nat :| size == k * n { Shifting.QuotientOf(size, n, k, 0); }
  }

  /** A directory leads on by every entry of its listing but "." and "..". */
  lemma ListsExact(d: Disk, p: Ino, i: Ino)
    requires d.Valid()
    ensures W.Lists(d, p, i) <==>
      && 1 <= p <= |d.inodes| && DirList(d, d.inodes[p - 1]).Some?
      && exists n: Name :: (i, n) in DirList(d, d.inodes[p - 1]).value && n != [0x2E] && n != [0x2E, 0x2E]
  {
    hide DirList;
    if W.Lists(d, p, i) {
      var e :| e in W.ListOf(d, p).value && e.0 == i && !W.IsDot(e.1);
      assert (i, e.1) in DirList(d, d.inodes[p - 1]).value;
    }
  }

  // ---- References -----------------------------------------------------------------------------

  lemma {:induction false} NamingExact(p: Ino, l: seq<Entry>, n: nat, target: Ino, x: (Ino, Name))
    requires n <= |l|
    ensures x in W.Naming(p, l, n, target) <==> x.0 == p && (target, x.1) in l[..n]
  {
    if n > 0 {
      NamingExact(p, l, n - 1, target, x);
      assert l[..n] == l[..n - 1] + [l[n - 1]];
    }
  }

  /** What the search for references lists: the directory and the name of every entry, dots included, that holds the
      number, in any of the directories read. */
  lemma {:induction false} ReferencesExact(d: Disk, dirs: seq<Ino>, target: Ino, x: (Ino, Name))
    requires d.Valid() && forall p :: p in dirs ==> 1 <= p <= |d.inodes| && DirList(d, d.inodes[p - 1]).Some?
    ensures x in W.References(d, dirs, target) <==> x.0 in dirs && (target, x.1) in DirList(d, d.inodes[x.0 - 1]).value
    decreases |dirs|
  {
    hide DirList;
    if |dirs| > 0 {
      var init, p := dirs[..|dirs| - 1], dirs[|dirs| - 1];
      assert dirs == init + [p] && p in dirs && forall q :: q in init ==> q in dirs;
      var l := DirList(d, d.inodes[p - 1]).value;
      ReferencesExact(d, init, target, x);
      NamingExact(p, l, |l|, target, x);
      assert l[..|l|] == l;
    }
  }
}
