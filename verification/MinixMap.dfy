/** Minix v1 block mapping and file reading (minixfs.py: `zone_at`, `collect_zones`, `read_file`,
    `read_dir`). */
module MinixMap {
  import opened Words

  const BLOCK_SIZE: nat := 1024
  const PER_BLOCK: nat := 512
  const DIRECT: nat := 7
  const MAX_BLOCKS: nat := DIRECT + PER_BLOCK + PER_BLOCK * PER_BLOCK

  type Ino = nat
  type Zone = nat

  datatype FileType = DirType | RegularType | CharType | BlockType | FifoType | LinkType | UnknownType

  /** An inode as far as mapping and checking look at it; zones[7] and zones[8] are the single and the
      double indirect block. */
  datatype Inode = Inode(kind: FileType, size: nat, zones: seq<Zone>)

  type Block = b: seq<Byte> | |b| == BLOCK_SIZE witness Zeros(BLOCK_SIZE)

  datatype Disk = Disk(nzones: nat, firstData: nat, direntSize: nat, inodes: seq<Inode>, blocks: seq<Block>,
                       inodeMap: seq<Byte>, zoneMap: seq<Byte>)
  {
    predicate Valid() {
      && |inodes| >= 1 && (forall i :: 0 <= i < |inodes| ==> |inodes[i].zones| == 9)
      && (direntSize == 16 || direntSize == 32)
    }
  }

  function ReadBlock(d: Disk, b: Zone): Block {
    if 0 < b < |d.blocks| then d.blocks[b] else Zeros(BLOCK_SIZE)
  }

  /** The j-th 16-bit zone number of an indirect block. */
  function Ptr(b: Block, j: nat): Zone
    requires j < PER_BLOCK
  {
    var lo: int, hi: int := b[2 * j], b[2 * j + 1];
    lo + 0x100 * hi
  }

  /** A zone number a data or indirect block may have. */
  predicate InData(d: Disk, z: Zone) {
    d.firstData <= z < d.nzones
  }

  // ---- The forward map --------------------------------------------------------------

  /** The zone of block `index` of a file, 0 for a hole; None beyond the format's limit. */
  function ZoneAt(d: Disk, f: Inode, index: nat): (z: Option<Zone>)
    requires |f.zones| == 9
    ensures z.Some? <==> index < MAX_BLOCKS
  {
    if index < DIRECT then Some(f.zones[index])
    else
      var i := index - DIRECT;
      if i < PER_BLOCK then
        Some(if f.zones[7] == 0 then 0 else Ptr(ReadBlock(d, f.zones[7]), i))
      else
        var k := i - PER_BLOCK;
        if k < PER_BLOCK * PER_BLOCK then
          Some(if f.zones[8] == 0 then 0
               else
                 var ind := Ptr(ReadBlock(d, f.zones[8]), k / PER_BLOCK);
                 if ind == 0 then 0 else Ptr(ReadBlock(d, ind), k % PER_BLOCK))
        else None
  }

  /** The blocks lo..hi-1 that are not holes, with their zones, in order. */
  function Mapped(d: Disk, f: Inode, lo: nat, hi: nat): (r: seq<(nat, Zone)>)
    requires |f.zones| == 9 && lo <= hi <= MAX_BLOCKS
    decreases hi - lo
  {
    if lo == hi then []
    else
      var z := ZoneAt(d, f, hi - 1).value;
      Mapped(d, f, lo, hi - 1) + if z != 0 then [(hi - 1, z)] else []
  }

  lemma {:induction false} MappedSplit(d: Disk, f: Inode, lo: nat, mid: nat, hi: nat)
    requires |f.zones| == 9 && lo <= mid <= hi <= MAX_BLOCKS
    ensures Mapped(d, f, lo, hi) == Mapped(d, f, lo, mid) + Mapped(d, f, mid, hi)
    decreases hi - mid
  {
    if mid < hi { MappedSplit(d, f, lo, mid, hi - 1); }
  }

  // ---- The enumeration ----------------------------------------------------------------

  /** The first n direct zones. */
  function Direct(f: Inode, n: nat): seq<(nat, Zone)>
    requires |f.zones| == 9 && n <= DIRECT
  {
    if n == 0 then [] else Direct(f, n - 1) + if f.zones[n - 1] != 0 then [(n - 1, f.zones[n - 1])] else []
  }

  /** The first n pointers of an indirect block, the block's file position being `base`. */
  function Pointers(b: Block, base: nat, n: nat): seq<(nat, Zone)>
    requires n <= PER_BLOCK
  {
    if n == 0 then []
    else Pointers(b, base, n - 1) + if Ptr(b, n - 1) != 0 then [(base + n - 1, Ptr(b, n - 1))] else []
  }

  function DoubleBase(j: nat): nat {
    DIRECT + PER_BLOCK + j * PER_BLOCK
  }

  /** What the first n entries of the double indirect block lead to; indirect blocks out of range are
      not followed. */
  function Doubles(d: Disk, b: Block, n: nat): seq<(nat, Zone)>
    requires n <= PER_BLOCK
  {
    if n == 0 then []
    else
      var z := Ptr(b, n - 1);
      Doubles(d, b, n - 1) + if InData(d, z) && z != 0 then Pointers(ReadBlock(d, z), DoubleBase(n - 1), PER_BLOCK) else []
  }

  function SingleData(d: Disk, f: Inode): seq<(nat, Zone)>
    requires |f.zones| == 9
  {
    if f.zones[7] != 0 && InData(d, f.zones[7]) then Pointers(ReadBlock(d, f.zones[7]), DIRECT, PER_BLOCK) else []
  }

  function DoubleData(d: Disk, f: Inode): seq<(nat, Zone)>
    requires |f.zones| == 9
  {
    if f.zones[8] != 0 && InData(d, f.zones[8]) then Doubles(d, ReadBlock(d, f.zones[8]), PER_BLOCK) else []
  }

  function Data(d: Disk, f: Inode): seq<(nat, Zone)>
    requires |f.zones| == 9
  {
    Direct(f, DIRECT) + SingleData(d, f) + DoubleData(d, f)
  }

  /** The nonzero pointers among the first n: the second-level indirect blocks. */
  function LowerMeta(b: Block, n: nat): seq<Zone>
    requires n <= PER_BLOCK
  {
    if n == 0 then [] else LowerMeta(b, n - 1) + if Ptr(b, n - 1) != 0 then [Ptr(b, n - 1)] else []
  }

  /** The indirect blocks themselves. */
  function Meta(d: Disk, f: Inode): seq<Zone>
    requires |f.zones| == 9
  {
    (if f.zones[7] != 0 then [f.zones[7]] else [])
    + (if f.zones[8] != 0 then [f.zones[8]] else [])
    + (if f.zones[8] != 0 && InData(d, f.zones[8]) then LowerMeta(ReadBlock(d, f.zones[8]), PER_BLOCK) else [])
  }

  /** Every indirect block that is used lies in the data area. */
  predicate IndirectsInRange(d: Disk, f: Inode)
    requires |f.zones| == 9
  {
    forall z :: z in Meta(d, f) ==> InData(d, z)
  }

  lemma {:induction false} DirectMapped(d: Disk, f: Inode, n: nat)
    requires |f.zones| == 9 && n <= DIRECT
    ensures Direct(f, n) == Mapped(d, f, 0, n)
  {
    if n > 0 { DirectMapped(d, f, n - 1); }
  }

  lemma {:induction false} SingleMapped(d: Disk, f: Inode, n: nat)
    requires |f.zones| == 9 && n <= PER_BLOCK
    ensures Mapped(d, f, DIRECT, DIRECT + n)
         == if f.zones[7] != 0 then Pointers(ReadBlock(d, f.zones[7]), DIRECT, n) else []
  {
    if n > 0 { SingleMapped(d, f, n - 1); }
  }

  /** One entry j of the double indirect block. */
  lemma {:induction false} LowerMapped(d: Disk, f: Inode, j: nat, n: nat)
    requires |f.zones| == 9 && j < PER_BLOCK && n <= PER_BLOCK && DoubleBase(j) + n <= MAX_BLOCKS
    ensures Mapped(d, f, DoubleBase(j), DoubleBase(j) + n)
         == if f.zones[8] == 0 || Ptr(ReadBlock(d, f.zones[8]), j) == 0 then []
            else Pointers(ReadBlock(d, Ptr(ReadBlock(d, f.zones[8]), j)), DoubleBase(j), n)
  {
    hide ZoneAt, Ptr, ReadBlock;
    if n > 0 {
      LowerMapped(d, f, j, n - 1);
      LowerZone(d, f, j, n - 1);
    }
  }

  lemma LowerZone(d: Disk, f: Inode, j: nat, k: nat)
    requires |f.zones| == 9 && j < PER_BLOCK && k < PER_BLOCK
    ensures DoubleBase(j) + k < MAX_BLOCKS
    ensures ZoneAt(d, f, DoubleBase(j) + k)
         == Some(if f.zones[8] == 0 || Ptr(ReadBlock(d, f.zones[8]), j) == 0 then 0
                 else Ptr(ReadBlock(d, Ptr(ReadBlock(d, f.zones[8]), j)), k))
  {
    hide Ptr, ReadBlock;
    var x := j * PER_BLOCK + k;
    assert x / PER_BLOCK == j && x % PER_BLOCK == k;
  }

  lemma {:induction false} LowerMetaHas(b: Block, n: nat, j: nat)
    requires j < n <= PER_BLOCK && Ptr(b, j) != 0
    ensures Ptr(b, j) in LowerMeta(b, n)
  {
    hide Ptr;
    if j < n - 1 { LowerMetaHas(b, n - 1, j); }
  }

  lemma {:induction false} DoublesMapped(d: Disk, f: Inode, n: nat)
    requires |f.zones| == 9 && IndirectsInRange(d, f) && n <= PER_BLOCK
    ensures Mapped(d, f, DoubleBase(0), DoubleBase(n))
         == if f.zones[8] != 0 then Doubles(d, ReadBlock(d, f.zones[8]), n) else []
  {
    hide Ptr, Mapped, IndirectsInRange, ReadBlock, Pointers;
    if n == 0 {
      NothingMapped(d, f, DoubleBase(0));
    } else {
      DoublesMapped(d, f, n - 1);
      assert DoubleBase(n) == DoubleBase(n - 1) + PER_BLOCK <= MAX_BLOCKS;
      MappedSplit(d, f, DoubleBase(0), DoubleBase(n - 1), DoubleBase(n));
      DoubleStep(d, f, n - 1);
    }
  }

  /** What entry j of the double indirect block maps is what the enumeration adds for it. */
  lemma DoubleStep(d: Disk, f: Inode, j: nat)
    requires |f.zones| == 9 && IndirectsInRange(d, f) && j < PER_BLOCK
    ensures DoubleBase(j) + PER_BLOCK <= MAX_BLOCKS
    ensures f.zones[8] == 0 ==> Mapped(d, f, DoubleBase(j), DoubleBase(j) + PER_BLOCK) == []
    ensures f.zones[8] != 0 ==> var b := ReadBlock(d, f.zones[8]);
      Doubles(d, b, j + 1) == Doubles(d, b, j) + Mapped(d, f, DoubleBase(j), DoubleBase(j) + PER_BLOCK)
  {
    hide Ptr, Mapped, IndirectsInRange, ReadBlock, Pointers;
    LowerMapped(d, f, j, PER_BLOCK);
    if f.zones[8] != 0 && Ptr(ReadBlock(d, f.zones[8]), j) != 0 { LowerInRange(d, f, j); }
  }

  lemma NothingMapped(d: Disk, f: Inode, i: nat)
    requires |f.zones| == 9 && i <= MAX_BLOCKS
    ensures Mapped(d, f, i, i) == []
  {
  }

  lemma LowerInRange(d: Disk, f: Inode, j: nat)
    requires |f.zones| == 9 && IndirectsInRange(d, f) && j < PER_BLOCK && f.zones[8] != 0
    requires Ptr(ReadBlock(d, f.zones[8]), j) != 0
    ensures InData(d, f.zones[8]) && InData(d, Ptr(ReadBlock(d, f.zones[8]), j))
  {
    hide Ptr;
    assert f.zones[8] in Meta(d, f);
    LowerMetaHas(ReadBlock(d, f.zones[8]), PER_BLOCK, j);
  }

  /** Map and enumeration agree: when every indirect block is in range, the enumeration lists, in order,
      exactly the blocks below the format's limit that the map does not call holes. */
  lemma EnumerationIsMap(d: Disk, f: Inode)
    requires |f.zones| == 9 && IndirectsInRange(d, f)
    ensures Data(d, f) == Mapped(d, f, 0, MAX_BLOCKS)
  {
    hide Ptr, Mapped, Pointers, Doubles, Direct, IndirectsInRange;
    DirectMapped(d, f, DIRECT);
    SingleMapped(d, f, PER_BLOCK);
    DoublesMapped(d, f, PER_BLOCK);
    TopInRange(d, f);
    MappedSplit(d, f, 0, DIRECT, DoubleBase(0));
    MappedSplit(d, f, 0, DoubleBase(0), MAX_BLOCKS);
    assert DoubleBase(PER_BLOCK) == MAX_BLOCKS;
  }

  lemma TopInRange(d: Disk, f: Inode)
    requires |f.zones| == 9 && IndirectsInRange(d, f)
    ensures f.zones[7] != 0 ==> InData(d, f.zones[7])
    ensures f.zones[8] != 0 ==> InData(d, f.zones[8])
  {
    assert f.zones[7] != 0 ==> f.zones[7] in Meta(d, f);
    assert f.zones[8] != 0 ==> f.zones[8] in Meta(d, f);
  }

  /** The members of the map's listing. */
  lemma {:induction false} MappedMembers(d: Disk, f: Inode, lo: nat, hi: nat, i: nat, z: Zone)
    requires |f.zones| == 9 && lo <= hi <= MAX_BLOCKS
    ensures (i, z) in Mapped(d, f, lo, hi) <==> lo <= i < hi && z != 0 && ZoneAt(d, f, i) == Some(z)
    decreases hi - lo
  {
    hide ZoneAt;
    if lo < hi { MappedMembers(d, f, lo, hi - 1, i, z); }
  }

  /** Its indices are strictly increasing. */
  lemma {:induction false} MappedIncreasing(d: Disk, f: Inode, lo: nat, hi: nat)
    requires |f.zones| == 9 && lo <= hi <= MAX_BLOCKS
    ensures forall x, y :: 0 <= x < y < |Mapped(d, f, lo, hi)| ==> Mapped(d, f, lo, hi)[x].0 < Mapped(d, f, lo, hi)[y].0
    ensures forall x :: 0 <= x < |Mapped(d, f, lo, hi)| ==> lo <= Mapped(d, f, lo, hi)[x].0 < hi
    decreases hi - lo
  {
    hide ZoneAt;
    if lo < hi { MappedIncreasing(d, f, lo, hi - 1); }
  }

  // ---- The enumeration as it runs -----------------------------------------------------------

  /** The nonzero pointers of one indirect block, added to those found so far. */
  method CollectPointers(b: Block, base: nat, found: seq<(nat, Zone)>) returns (data: seq<(nat, Zone)>)
    ensures data == found + Pointers(b, base, PER_BLOCK)
  {
    hide Ptr;
    data := found;
    for j := 0 to PER_BLOCK
      invariant data == found + Pointers(b, base, j)
    {
      if Ptr(b, j) != 0 { data := data + [(base + j, Ptr(b, j))]; }
    }
  }

  /** The same through the double indirect block. */
  method CollectDoubles(d: Disk, b: Block, data0: seq<(nat, Zone)>, meta0: seq<Zone>)
    returns (data: seq<(nat, Zone)>, meta: seq<Zone>)
    ensures data == data0 + Doubles(d, b, PER_BLOCK) && meta == meta0 + LowerMeta(b, PER_BLOCK)
  {
    hide Ptr, ReadBlock, Pointers;
    data, meta := data0, meta0;
    for j := 0 to PER_BLOCK
      invariant data == data0 + Doubles(d, b, j) && meta == meta0 + LowerMeta(b, j)
    {
      var z := Ptr(b, j);
      if z == 0 { continue; }
      meta := meta + [z];
      if InData(d, z) { data := CollectPointers(ReadBlock(d, z), DoubleBase(j), data); }
    }
  }

  method CollectZones(d: Disk, f: Inode) returns (data: seq<(nat, Zone)>, meta: seq<Zone>)
    requires |f.zones| == 9
    ensures data == Data(d, f) && meta == Meta(d, f)
  {
    hide ReadBlock, Pointers, Doubles, LowerMeta;
    data, meta := [], [];
    for i := 0 to DIRECT
      invariant data == Direct(f, i)
    {
      if f.zones[i] != 0 { data := data + [(i, f.zones[i])]; }
    }
    var ind := f.zones[7];
    if ind != 0 {
      meta := meta + [ind];
      if InData(d, ind) { data := CollectPointers(ReadBlock(d, ind), DIRECT, data); }
    }
    var dbl := f.zones[8];
    if dbl != 0 {
      meta := meta + [dbl];
      if InData(d, dbl) { data, meta := CollectDoubles(d, ReadBlock(d, dbl), data, meta); }
    }
  }

  // ---- File contents ---------------------------------------------------------------------------

  /** The byte at position x of a file, zero in a hole. */
  function ByteOf(d: Disk, f: Inode, x: nat): Byte
    requires |f.zones| == 9 && x / BLOCK_SIZE < MAX_BLOCKS
  {
    ReadBlock(d, ZoneAt(d, f, x / BLOCK_SIZE).value)[x % BLOCK_SIZE]
  }

  /** The file fits the format. */
  predicate Addressable(size: nat) {
    size <= MAX_BLOCKS * BLOCK_SIZE
  }

  /** All bytes of a file. */
  function Content(d: Disk, f: Inode): (c: seq<Byte>)
    requires |f.zones| == 9 && Addressable(f.size)
    ensures |c| == f.size
  {
    seq(f.size, x requires 0 <= x < f.size => ByteAtPos(d, f, x))
  }

  function ByteAtPos(d: Disk, f: Inode, x: nat): Byte
    requires |f.zones| == 9 && x < MAX_BLOCKS * BLOCK_SIZE
  {
    PosInRange(x, MAX_BLOCKS);
    ByteOf(d, f, x)
  }

  lemma PosInRange(x: nat, n: nat)
    ensures x < n * BLOCK_SIZE <==> x / BLOCK_SIZE < n
  {
  }

  /** Where a read ends: at the end of the file or of the request. */
  function ReadEnd(f: Inode, offset: nat, length: int): nat {
    Min(f.size, offset + Max(length, 0))
  }

  /** Only directories, regular files and links have contents. */
  predicate HasContent(f: Inode) {
    f.kind == DirType || f.kind == RegularType || f.kind == LinkType
  }

  /** Reading a range block by block; None for another kind of file, or when a block beyond the format's
      limit is reached. */
  method ReadFile(d: Disk, f: Inode, offset: nat, length: int) returns (r: Option<seq<Byte>>)
    requires |f.zones| == 9
    ensures r.Some? <==> HasContent(f) && (offset >= ReadEnd(f, offset, length) || Addressable(ReadEnd(f, offset, length)))
    ensures r.Some? && offset < ReadEnd(f, offset, length) ==>
      && |r.value| == ReadEnd(f, offset, length) - offset
      && forall x :: offset <= x < ReadEnd(f, offset, length) ==> r.value[x - offset] == ByteAtPos(d, f, x)
    ensures r.Some? && offset >= ReadEnd(f, offset, length) ==> r.value == []
    ensures r.Some? ==> |r.value| == if offset >= f.size || length <= 0 then 0 else if offset + length <= f.size then length else f.size - offset
    ensures r.Some? ==> f.kind == DirType || f.kind == RegularType || f.kind == LinkType
    ensures (f.kind == DirType || f.kind == RegularType || f.kind == LinkType) && Addressable(f.size) ==> r.Some?
  {
    hide ReadBlock, ZoneAt;
    if !HasContent(f) { return None; }
    var end := ReadEnd(f, offset, length);
    if offset >= end { return Some([]); }
    var out: seq<Byte> := [];
    var block := offset / BLOCK_SIZE;
    var pos := block * BLOCK_SIZE;
    while pos < end
      invariant pos == block * BLOCK_SIZE && |out| == Max(0, Min(pos, end) - offset)
      invariant pos > offset ==> Addressable(Min(pos, end))
      invariant forall x :: offset <= x < Min(pos, end) ==> x < MAX_BLOCKS * BLOCK_SIZE && out[x - offset] == ByteAtPos(d, f, x)
      decreases end - pos
    {
      ZoneLimit(d, f, block);
      var z := ZoneAt(d, f, block);
      if z.None? { return None; }
      var data := ReadBlock(d, z.value);
      var lo, hi := Max(offset - pos, 0), Min(end - pos, BLOCK_SIZE);
      ghost var before := out;
      out := out + data[lo..hi];
      forall x | offset <= x < Min(pos + BLOCK_SIZE, end)
        ensures x < MAX_BLOCKS * BLOCK_SIZE && out[x - offset] == ByteAtPos(d, f, x)
      {
        if x >= pos { InBlock(x, block); }
      }
      block := block + 1;
      pos := pos + BLOCK_SIZE;
    }
    r := Some(out);
  }

  lemma ZoneLimit(d: Disk, f: Inode, block: nat)
    requires |f.zones| == 9
    ensures ZoneAt(d, f, block).Some? <==> (block + 1) * BLOCK_SIZE <= MAX_BLOCKS * BLOCK_SIZE
  {
  }

  lemma InBlock(x: nat, block: nat)
    requires block * BLOCK_SIZE <= x < (block + 1) * BLOCK_SIZE
    ensures x / BLOCK_SIZE == block && x % BLOCK_SIZE == x - block * BLOCK_SIZE
  {
  }

  /** Reading any range gives that slice of the whole contents. */
  lemma ReadIsSlice(d: Disk, f: Inode, offset: nat, length: int, r: seq<Byte>)
    requires |f.zones| == 9 && Addressable(f.size) && offset < ReadEnd(f, offset, length)
    requires |r| == ReadEnd(f, offset, length) - offset
    requires forall x :: offset <= x < ReadEnd(f, offset, length) ==> r[x - offset] == ByteAtPos(d, f, x)
    ensures r == Content(d, f)[offset..ReadEnd(f, offset, length)]
  {
    hide ReadBlock, ZoneAt, ByteAtPos;
  }

  // ---- Directories --------------------------------------------------------------------------------

  type Name = seq<Byte>
  type Entry = (Ino, Name)

  /** The bytes before the first NUL. */
  function UpToNul(s: seq<Byte>): (r: seq<Byte>)
    ensures r <= s && forall i :: 0 <= i < |r| ==> r[i] != 0
    ensures |r| < |s| ==> s[|r|] == 0
  {
    if |s| == 0 || s[0] == 0 then [] else [s[0]] + UpToNul(s[1..])
  }

  /** Slot k of a directory: its inode number and name. */
  function SlotAt(raw: seq<Byte>, size: nat, k: nat): Entry
    requires size >= 2 && (k + 1) * size <= |raw|
  {
    var lo: int, hi: int := raw[k * size], raw[k * size + 1];
    (lo + 0x100 * hi, UpToNul(raw[k * size + 2..(k + 1) * size]))
  }

  /** The used slots among the first n, in order; number 0 marks a deleted entry. */
  function Slots(raw: seq<Byte>, size: nat, n: nat): (r: seq<Entry>)
    requires size >= 2 && n * size <= |raw|
    ensures forall i :: 0 <= i < |r| ==> r[i].0 != 0
  {
    if n == 0 then []
    else
      var e := SlotAt(raw, size, n - 1);
      Slots(raw, size, n - 1) + if e.0 != 0 then [e] else []
  }

  /** The entries of a directory; None when it is none or too large to read. */
  function DirList(d: Disk, f: Inode): Option<seq<Entry>>
    requires d.Valid() && |f.zones| == 9
  {
    if f.kind != DirType || !Addressable(f.size) then None
    else
      SlotsFit(f.size, d.direntSize);
      Some(Slots(Content(d, f), d.direntSize, f.size / d.direntSize))
  }

  lemma SlotsFit(total: nat, size: nat)
    requires size == 16 || size == 32
    ensures total / size * size <= total < (total / size + 1) * size
  {
  }

  method ReadDir(d: Disk, f: Inode) returns (r: Option<seq<Entry>>)
    requires d.Valid() && |f.zones| == 9
    ensures r == DirList(d, f)
  {
    hide SlotAt, ByteAtPos;
    if f.kind != DirType { return None; }
    var read := ReadFile(d, f, 0, f.size);
    if read.None? { return None; }
    var raw := read.value;
    WholeFile(d, f, raw);
    var entries: seq<Entry> := [];
    var k, off, size := 0, 0, d.direntSize;
    SlotsFit(f.size, size);
    while off < |raw| - size + 1
      invariant off == k * size && k * size <= |raw| && entries == Slots(raw, size, k)
      decreases |raw| - off
    {
      SlotBounds(k, size, |raw|);
      var e := SlotAt(raw, size, k);
      if e.0 != 0 { entries := entries + [e]; }
      k := k + 1;
      off := off + size;
    }
    LastSlot(k, size, |raw|);
    r := Some(entries);
  }

  lemma WholeFile(d: Disk, f: Inode, raw: seq<Byte>)
    requires |f.zones| == 9 && (f.size > 0 ==> Addressable(f.size))
    requires f.size > 0 ==> |raw| == f.size && forall x :: 0 <= x < f.size ==> raw[x - 0] == ByteAtPos(d, f, x)
    requires f.size == 0 ==> raw == []
    ensures Addressable(f.size) && raw == Content(d, f)
  {
    hide ByteAtPos;
  }

  lemma SlotBounds(k: nat, size: nat, total: nat)
    requires k * size < total - size + 1
    ensures (k + 1) * size <= total
  {
  }

  lemma LastSlot(k: nat, size: nat, total: nat)
    requires (size == 16 || size == 32) && k * size <= total && k * size >= total - size + 1
    ensures k == total / size
  {
  }
}
