/** The consistency check of an image (minixfs.py, `check_fs`): it reports nothing exactly when the image
    is consistent. */
module MinixCheck {
  import opened Words
  import opened MinixMap
  import opened MinixWalk

  /** What the check may report, with the inode (0 for none). */
  datatype Complaint = NotMarked | UnknownKind | ZoneOutside | ZoneFree | ZoneShared | WrongCount | WrongDirSize
    | EntryOutside | Orphan | LostZones

  datatype Problem = Problem(what: Complaint, ino: Ino)

  predicate BitSet(bits: seq<Byte>, n: nat)
    requires n / 8 < |bits|
  {
    bits[n / 8] / Pow2(n % 8) % 2 == 1
  }

  /** The image's own figures are usable: the bitmaps cover what they describe. */
  predicate Usable(d: Disk) {
    && d.Valid() && d.firstData <= d.nzones
    && |d.inodes| / 8 < |d.inodeMap| && (d.nzones - d.firstData + 1) / 8 < |d.zoneMap|
  }

  predicate Marked(d: Disk, i: Ino)
    requires Usable(d) && InRange(d, i)
  {
    BitSet(d.inodeMap, i)
  }

  predicate ZoneMarked(d: Disk, z: Zone)
    requires Usable(d) && InData(d, z)
  {
    BitSet(d.zoneMap, z - d.firstData + 1)
  }

  // ---- One inode ----------------------------------------------------------------------

  /** Devices and fifos hold no blocks; zones[0] is a device number. */
  predicate HoldsData(f: Inode) {
    f.kind != CharType && f.kind != BlockType && f.kind != FifoType
  }

  function Seconds(data: seq<(nat, Zone)>): (r: seq<Zone>)
    ensures |r| == |data| && forall i :: 0 <= i < |r| ==> r[i] == data[i].1
  {
    seq(|data|, i requires 0 <= i < |data| => data[i].1)
  }

  /** Every zone the inode refers to, data blocks first. */
  function ZonesOf(d: Disk, f: Inode): seq<Zone>
    requires |f.zones| == 9
  {
    if HoldsData(f) then Seconds(Data(d, f)) + Meta(d, f) else []
  }

  function Expected(f: Inode): nat {
    (f.size + BLOCK_SIZE - 1) / BLOCK_SIZE
  }

  /** The count the check makes. */
  predicate RightCount(d: Disk, f: Inode)
    requires |f.zones| == 9
  {
    |Data(d, f)| == Expected(f) && forall i :: 0 <= i < |Data(d, f)| ==> Data(d, f)[i].0 < Expected(f)
  }

  /** What it is for: exactly the blocks of the file are mapped, with no hole and none behind the end. */
  ghost predicate FullyMapped(d: Disk, f: Inode)
    requires |f.zones| == 9
  {
    Expected(f) <= MAX_BLOCKS && forall i :: 0 <= i < MAX_BLOCKS ==> (ZoneAt(d, f, i) != Some(0) <==> i < Expected(f))
  }

  predicate RightDirSize(d: Disk, f: Inode)
    requires d.Valid()
  {
    f.kind == DirType ==> f.size % d.direntSize == 0
  }

  // ---- Pigeonhole ---------------------------------------------------------------------------

  /** n strictly increasing numbers below n are 0 .. n-1. */
  lemma {:induction false} IncreasingFills(s: seq<nat>, n: nat, k: nat)
    requires |s| == n && k < n && (forall i, j :: 0 <= i < j < n ==> s[i] < s[j]) && (forall i :: 0 <= i < n ==> s[i] < n)
    ensures s[k] == k
  {
    AtLeastIndex(s, k);
    AtMostIndex(s, n, k);
  }

  lemma {:induction false} AtLeastIndex(s: seq<nat>, k: nat)
    requires k < |s| && forall i, j :: 0 <= i < j < |s| ==> s[i] < s[j]
    ensures s[k] >= k
  {
    if k > 0 { AtLeastIndex(s, k - 1); }
  }

  lemma {:induction false} AtMostIndex(s: seq<nat>, n: nat, k: nat)
    requires |s| == n && k < n && (forall i, j :: 0 <= i < j < n ==> s[i] < s[j]) && (forall i :: 0 <= i < n ==> s[i] < n)
    ensures s[k] <= k
    decreases n - k
  {
    if k < n - 1 { AtMostIndex(s, n, k + 1); }
  }

  function Firsts(data: seq<(nat, Zone)>): (r: seq<nat>)
    ensures |r| == |data| && forall i :: 0 <= i < |r| ==> r[i] == data[i].0
  {
    seq(|data|, i requires 0 <= i < |data| => data[i].0)
  }

  /** With its indirect blocks in range, an inode passes the count if and only if its blocks are exactly
      those of the file. */
  lemma CountIsMapping(d: Disk, f: Inode)
    requires |f.zones| == 9 && IndirectsInRange(d, f)
    ensures RightCount(d, f) <==> FullyMapped(d, f)
  {
    hide ZoneAt, Data, Mapped, IndirectsInRange;
    EnumerationIsMap(d, f);
    MappedIncreasing(d, f, 0, MAX_BLOCKS);
    var m := Data(d, f);
    if RightCount(d, f) { CountFills(d, f, m); }
    if FullyMapped(d, f) { MappingCounts(d, f, m); }
  }

  lemma CountFills(d: Disk, f: Inode, m: seq<(nat, Zone)>)
    requires |f.zones| == 9 && m == Mapped(d, f, 0, MAX_BLOCKS) && |m| == Expected(f)
    requires forall x, y :: 0 <= x < y < |m| ==> m[x].0 < m[y].0
    requires forall x :: 0 <= x < |m| ==> m[x].0 < MAX_BLOCKS && m[x].0 < Expected(f)
    ensures FullyMapped(d, f)
  {
    hide ZoneAt, Mapped;
    var n := Expected(f);
    forall k | 0 <= k < n ensures m[k].0 == k { IncreasingFills(Firsts(m), n, k); }
    if n > 0 { assert m[n - 1].0 == n - 1; }
    forall i | 0 <= i < MAX_BLOCKS ensures ZoneAt(d, f, i) != Some(0) <==> i < n {
      ZoneDefined(d, f, i);
      if i < n {
        assert m[i] == (i, m[i].1);
        MappedMembers(d, f, 0, MAX_BLOCKS, i, m[i].1);
      } else {
        var z := ZoneAt(d, f, i).value;
        NotListed(m, n, i, z);
        MappedMembers(d, f, 0, MAX_BLOCKS, i, z);
      }
    }
  }

  lemma NotListed(m: seq<(nat, Zone)>, n: nat, i: nat, z: Zone)
    requires i >= n && forall x :: 0 <= x < |m| ==> m[x].0 < n
    ensures (i, z) !in m
  {
  }

  lemma ZoneDefined(d: Disk, f: Inode, i: nat)
    requires |f.zones| == 9 && i < MAX_BLOCKS
    ensures ZoneAt(d, f, i).Some?
  {
  }

  lemma {:induction false} PrefixCount(d: Disk, f: Inode, n: nat)
    requires |f.zones| == 9 && n <= MAX_BLOCKS && forall i :: 0 <= i < n ==> ZoneAt(d, f, i) != Some(0)
    ensures |Mapped(d, f, 0, n)| == n
  {
    hide ZoneAt;
    if n > 0 {
      PrefixCount(d, f, n - 1);
      ZoneDefined(d, f, n - 1);
    }
  }

  lemma {:induction false} TailEmpty(d: Disk, f: Inode, lo: nat, hi: nat)
    requires |f.zones| == 9 && lo <= hi <= MAX_BLOCKS && forall i :: lo <= i < hi ==> ZoneAt(d, f, i) == Some(0)
    ensures Mapped(d, f, lo, hi) == []
    decreases hi - lo
  {
    hide ZoneAt;
    if lo < hi { TailEmpty(d, f, lo, hi - 1); }
  }

  lemma MappingCounts(d: Disk, f: Inode, m: seq<(nat, Zone)>)
    requires |f.zones| == 9 && m == Mapped(d, f, 0, MAX_BLOCKS) && FullyMapped(d, f)
    ensures |m| == Expected(f) && forall x :: 0 <= x < |m| ==> m[x].0 < Expected(f)
  {
    hide ZoneAt, Mapped;
    var n := Expected(f);
    PrefixCount(d, f, n);
    forall i | n <= i < MAX_BLOCKS ensures ZoneAt(d, f, i) == Some(0) { ZoneDefined(d, f, i); }
    TailEmpty(d, f, n, MAX_BLOCKS);
    MappedSplit(d, f, 0, n, MAX_BLOCKS);
    MappedIncreasing(d, f, 0, n);
  }

  // ---- Zones, each used once -------------------------------------------------------------------

  predicate Distinct(s: seq<Zone>) {
    forall i, j :: 0 <= i < j < |s| ==> s[i] != s[j]
  }

  /** The zones of a sequence of inodes. */
  function AllZones(d: Disk, done: seq<Ino>): seq<Zone>
    requires d.Valid() && forall v :: v in done ==> InRange(d, v)
  {
    if |done| == 0 then []
    else AllZones(d, done[..|done| - 1]) + ZonesOf(d, NodeOf(d, done[|done| - 1]))
  }

  predicate GoodZone(d: Disk, z: Zone)
    requires Usable(d)
  {
    InData(d, z) && ZoneMarked(d, z)
  }

  predicate GoodZones(d: Disk, s: seq<Zone>)
    requires Usable(d)
  {
    forall i :: 0 <= i < |s| ==> GoodZone(d, s[i])
  }

  lemma DistinctAppend(s: seq<Zone>, z: Zone)
    ensures Distinct(s + [z]) <==> Distinct(s) && z !in s
  {
    var t := s + [z];
    if Distinct(t) {
      forall i, j | 0 <= i < j < |s| ensures s[i] != s[j] { assert t[i] == s[i] && t[j] == s[j]; }
      forall i | 0 <= i < |s| ensures s[i] != z { assert t[i] == s[i] && t[|s|] == z; }
    }
  }

  /** The owners of the zones met so far, and whether all was well: `clean` holds exactly if each of
      these zones lies in the data area, is marked, and was met once. */
  ghost predicate Owned(d: Disk, met: seq<Zone>, owners: map<Zone, Ino>, clean: bool)
    requires Usable(d)
  {
    && (forall z :: z in owners <==> z in met && InData(d, z))
    && (clean <==> GoodZones(d, met) && Distinct(met))
  }

  /** One more zone. */
  lemma OwnedStep(d: Disk, met: seq<Zone>, owners: map<Zone, Ino>, clean: bool, z: Zone, ino: Ino)
    requires Usable(d) && Owned(d, met, owners, clean)
    ensures Owned(d, met + [z], if InData(d, z) && z !in owners then owners[z := ino] else owners,
                  clean && GoodZone(d, z) && z !in owners)
  {
    DistinctAppend(met, z);
    var t := met + [z];
    assert GoodZones(d, t) <==> GoodZones(d, met) && GoodZone(d, z) by {
      if GoodZones(d, t) {
        assert t[|met|] == z;
        forall i | 0 <= i < |met| ensures GoodZone(d, met[i]) { assert t[i] == met[i]; }
      }
    }
    if clean && z in met {
      var i :| 0 <= i < |met| && met[i] == z;
      assert GoodZone(d, met[i]);
    }
  }

  /** The zones of one inode against those met before. */
  method CheckZones(d: Disk, ino: Ino, zones: seq<Zone>, owners0: map<Zone, Ino>, problems0: seq<Problem>,
                    ghost met: seq<Zone>, ghost clean: bool)
    returns (owners: map<Zone, Ino>, problems: seq<Problem>, ghost clean': bool)
    requires Usable(d) && Owned(d, met, owners0, clean)
    ensures Owned(d, met + zones, owners, clean') && problems0 <= problems && (clean' ==> clean)
    ensures clean ==> (problems == problems0 <==> clean')
  {
    hide Owned, InData, ZoneMarked;
    owners, problems, clean' := owners0, problems0, clean;
    assert met + zones[..0] == met;
    for k := 0 to |zones|
      invariant Owned(d, met + zones[..k], owners, clean') && problems0 <= problems && (clean' ==> clean)
      invariant clean ==> (problems == problems0 <==> clean')
    {
      var z := zones[k];
      OwnedStep(d, met + zones[..k], owners, clean', z, ino);
      assert met + zones[..k] + [z] == met + zones[..k + 1];
      clean' := clean' && GoodZone(d, z) && z !in owners;
      if !InData(d, z) {
        problems := problems + [Problem(ZoneOutside, ino)];
        continue;
      }
      if !ZoneMarked(d, z) { problems := problems + [Problem(ZoneFree, ino)]; }
      if z in owners { problems := problems + [Problem(ZoneShared, ino)]; } else { owners := owners[z := ino]; }
    }
    assert zones[..|zones|] == zones;
  }

  /** Everything checked about one inode but its mark. */
  method CheckInode(d: Disk, ino: Ino, owners0: map<Zone, Ino>, problems0: seq<Problem>, ghost met: seq<Zone>, ghost clean: bool)
    returns (owners: map<Zone, Ino>, problems: seq<Problem>, ghost clean': bool)
    requires Usable(d) && InRange(d, ino) && Owned(d, met, owners0, clean)
    ensures Owned(d, met + ZonesOf(d, NodeOf(d, ino)), owners, clean') && problems0 <= problems && (clean' ==> clean)
    ensures clean ==> (problems == problems0 <==> clean' && Sized(d, NodeOf(d, ino)))
  {
    hide Owned, Data, Meta;
    var f := NodeOf(d, ino);
    if !HoldsData(f) {
      assert met + [] == met;
      return owners0, problems0, clean;
    }
    var data, meta := CollectZones(d, f);
    owners, problems, clean' := CheckZones(d, ino, Seconds(data) + meta, owners0, problems0, met, clean);
    var expected := Expected(f);
    if |data| != expected || !(forall i :: 0 <= i < |data| ==> data[i].0 < expected) {
      problems := problems + [Problem(WrongCount, ino)];
    }
    if f.kind == DirType && f.size % d.direntSize != 0 {
      problems := problems + [Problem(WrongDirSize, ino)];
    }
  }

  /** Size and blocks fit together. */
  predicate Sized(d: Disk, f: Inode)
    requires d.Valid() && |f.zones| == 9
  {
    HoldsData(f) ==> RightCount(d, f) && RightDirSize(d, f)
  }

  // ---- The state of the check ------------------------------------------------------------------

  datatype Progress = Progress(problems: seq<Problem>, owners: map<Zone, Ino>, checked: set<Ino>, referenced: set<Ino>)

  /** Inode v by itself gives no cause for complaint. */
  predicate Passed(d: Disk, v: Ino)
    requires Usable(d) && InRange(d, v)
  {
    Marked(d, v) && NodeOf(d, v).kind != UnknownType && Sized(d, NodeOf(d, v))
  }

  /** `done` is what has been checked, in order; there are no problems exactly if the zones are clean, the
      entries read were in range and every inode checked passed. */
  ghost predicate Tracks(d: Disk, p: Progress, done: seq<Ino>, clean: bool, entriesOk: bool)
    requires Usable(d)
  {
    && (forall v :: v in done ==> InRange(d, v)) && NoDuplicates(done)
    && (forall i :: i in p.checked <==> i in done)
    && Owned(d, AllZones(d, done), p.owners, clean)
    && (p.problems == [] <==> clean && entriesOk && forall v :: v in done ==> Passed(d, v))
  }

  lemma AllZonesAppend(d: Disk, done: seq<Ino>, v: Ino)
    requires d.Valid() && (forall x :: x in done ==> InRange(d, x)) && InRange(d, v)
    ensures AllZones(d, done + [v]) == AllZones(d, done) + ZonesOf(d, NodeOf(d, v))
    ensures forall x :: x in done + [v] ==> InRange(d, x)
  {
    assert (done + [v])[..|done + [v]| - 1] == done;
  }

  lemma DoneAppend(done: seq<Ino>, v: Ino)
    requires NoDuplicates(done) && v !in done
    ensures NoDuplicates(done + [v]) && forall x :: x in done + [v] <==> x in done || x == v
  {
  }

  /** Checking an inode for the first time; directories from the stack are not checked for their type. */
  method CheckOne(d: Disk, p: Progress, v: Ino, stacked: bool, ghost done: seq<Ino>, ghost clean: bool, ghost entriesOk: bool)
    returns (p': Progress, ghost clean': bool)
    requires Usable(d) && Tracks(d, p, done, clean, entriesOk) && InRange(d, v) && v !in p.checked
    ensures p'.checked == p.checked + {v} && p'.referenced == p.referenced
    ensures !stacked || NodeOf(d, v).kind == DirType ==> Tracks(d, p', done + [v], clean', entriesOk)
  {
    hide Owned, ZonesOf, Sized, AllZones, NoDuplicates;
    AllZonesAppend(d, done, v);
    DoneAppend(done, v);
    var problems := p.problems;
    if !Marked(d, v) { problems := problems + [Problem(NotMarked, v)]; }
    if !stacked && NodeOf(d, v).kind == UnknownType { problems := problems + [Problem(UnknownKind, v)]; }
    ghost var before := problems;
    var owners;
    owners, problems, clean' := CheckInode(d, v, p.owners, problems, AllZones(d, done), clean);
    p' := Progress(problems, owners, p.checked + {v}, p.referenced);
  }

  lemma EntryBad(d: Disk, p: Progress, done: seq<Ino>, clean: bool, entriesOk: bool, problem: Problem)
    requires Usable(d) && Tracks(d, p, done, clean, entriesOk)
    ensures Tracks(d, p.(problems := p.problems + [problem]), done, clean, false)
  {
    hide Owned, AllZones;
  }

  lemma ReferencedOnly(d: Disk, p: Progress, done: seq<Ino>, clean: bool, entriesOk: bool, r: set<Ino>)
    requires Usable(d) && Tracks(d, p, done, clean, entriesOk)
    ensures Tracks(d, p.(referenced := r), done, clean, entriesOk)
  {
    hide Owned, AllZones;
  }

  // ---- Reading one directory -----------------------------------------------------------------------

  /** Visited: a reachable directory, or a file with an ordinary entry in one. */
  ghost predicate Visited(d: Disk, v: Ino)
    requires d.Valid()
  {
    Reachable(d, v) || (InRange(d, v) && !IsDirectory(d, v) && exists p :: Reachable(d, p) && Lists(d, p, v))
  }

  /** Some entry of a reachable directory names i, dots included; the root needs no name. */
  ghost predicate NamedSomewhere(d: Disk, i: Ino)
    requires d.Valid()
  {
    i == ROOT || exists p :: Reachable(d, p) && Mentions(d, p, i)
  }

  ghost predicate Mentions(d: Disk, p: Ino, i: Ino)
    requires d.Valid()
  {
    InRange(d, p) && ListOf(d, p).Some? && exists e :: e in ListOf(d, p).value && e.0 == i
  }

  predicate EntriesInRange(d: Disk, l: seq<Entry>, n: nat)
    requires n <= |l|
  {
    forall k :: 0 <= k < n ==> InRange(d, l[k].0)
  }

  /** The first n entries have had their effect. */
  ghost predicate Handled(d: Disk, l: seq<Entry>, n: nat, checked: set<Ino>, stack: seq<Ino>, referenced: set<Ino>)
    requires n <= |l|
  {
    forall k :: 0 <= k < n && InRange(d, l[k].0) ==>
      && l[k].0 in referenced
      && (!IsDot(l[k].1) ==> l[k].0 in checked || (IsDirectory(d, l[k].0) && l[k].0 in stack))
  }

  lemma HandledStep(d: Disk, l: seq<Entry>, n: nat, c0: set<Ino>, s0: seq<Ino>, r0: set<Ino>, c: set<Ino>, s: seq<Ino>, r: set<Ino>)
    requires n < |l| && Handled(d, l, n, c0, s0, r0) && c0 <= c && s0 <= s && r0 <= r
    requires InRange(d, l[n].0) ==> l[n].0 in r && (!IsDot(l[n].1) ==> l[n].0 in c || (IsDirectory(d, l[n].0) && l[n].0 in s))
    ensures Handled(d, l, n + 1, c, s, r)
  {
  }

  lemma EntryVisits(d: Disk, dnum: Ino, l: seq<Entry>, k: nat)
    requires d.Valid() && Reachable(d, dnum) && InRange(d, dnum) && ListOf(d, dnum) == Some(l) && k < |l|
    ensures NamedSomewhere(d, l[k].0)
    ensures !IsDot(l[k].1) && IsDirectory(d, l[k].0) ==> Reachable(d, l[k].0)
    ensures !IsDot(l[k].1) && InRange(d, l[k].0) ==> Visited(d, l[k].0)
  {
    hide Reachable, DirList;
    assert l[k] in l;
    assert Mentions(d, dnum, l[k].0);
    if !IsDot(l[k].1) {
      assert Lists(d, dnum, l[k].0);
      if IsDirectory(d, l[k].0) {
        assert Child(d, dnum, l[k].0);
        ChildReachable(d, dnum, l[k].0);
      }
    }
  }

  /** The entries of one directory: names noted, files checked on first sight, directories not yet checked
      put on the stack (some of them perhaps again). */
  method ScanEntries(d: Disk, dnum: Ino, l: seq<Entry>, p0: Progress, stack0: seq<Ino>,
                     ghost done0: seq<Ino>, ghost clean0: bool, ghost entriesOk: bool)
    returns (p: Progress, stack: seq<Ino>, ghost done: seq<Ino>, ghost clean: bool)
    requires Usable(d) && Reachable(d, dnum) && InRange(d, dnum) && ListOf(d, dnum) == Some(l)
    requires Tracks(d, p0, done0, clean0, entriesOk)
    requires (forall v :: v in p0.checked ==> Visited(d, v)) && (forall i :: i in p0.referenced ==> NamedSomewhere(d, i))
    requires forall x :: x in stack0 ==> Reachable(d, x)
    ensures Tracks(d, p, done, clean, entriesOk && EntriesInRange(d, l, |l|))
    ensures (forall v :: v in p.checked ==> Visited(d, v)) && (forall i :: i in p.referenced ==> NamedSomewhere(d, i))
    ensures forall x :: x in stack ==> Reachable(d, x)
    ensures p0.checked <= p.checked && p0.referenced <= p.referenced && stack0 <= stack
    ensures forall v :: v in p.checked && v !in p0.checked ==> !IsDirectory(d, v)
    ensures forall k :: |stack0| <= k < |stack| ==> stack[k] !in p.checked
    ensures Handled(d, l, |l|, p.checked, stack, p.referenced)
  {
    hide Tracks, Reachable, Visited, NamedSomewhere, DirList, Handled;
    p, stack, done, clean := p0, stack0, done0, clean0;
    NothingHandled(d, l, p.checked, stack, p.referenced);
    for k := 0 to |l|
      invariant Tracks(d, p, done, clean, entriesOk && EntriesInRange(d, l, k))
      invariant (forall v :: v in p.checked ==> Visited(d, v)) && (forall i :: i in p.referenced ==> NamedSomewhere(d, i))
      invariant forall x :: x in stack ==> Reachable(d, x)
      invariant p0.checked <= p.checked && p0.referenced <= p.referenced && stack0 <= stack
      invariant forall v :: v in p.checked && v !in p0.checked ==> !IsDirectory(d, v)
      invariant forall x :: |stack0| <= x < |stack| ==> stack[x] !in p.checked && IsDirectory(d, stack[x])
      invariant Handled(d, l, k, p.checked, stack, p.referenced)
    {
      var i := l[k].0;
      ghost var q, t := p, stack;
      EntryVisits(d, dnum, l, k);
      if !(1 <= i <= |d.inodes|) {
        EntryBad(d, p, done, clean, entriesOk && EntriesInRange(d, l, k), Problem(EntryOutside, i));
        p := p.(problems := p.problems + [Problem(EntryOutside, i)]);
        HandledStep(d, l, k, q.checked, t, q.referenced, p.checked, stack, p.referenced);
        continue;
      }
      ReferencedOnly(d, p, done, clean, entriesOk && EntriesInRange(d, l, k), p.referenced + {i});
      p := p.(referenced := p.referenced + {i});
      if !IsDot(l[k].1) {
        if NodeOf(d, i).kind == DirType {
          if i !in p.checked { stack := stack + [i]; }
        } else if i !in p.checked {
          ghost var clean1;
          p, clean1 := CheckOne(d, p, i, false, done, clean, entriesOk && EntriesInRange(d, l, k));
          done, clean := done + [i], clean1;
        }
      }
      HandledStep(d, l, k, q.checked, t, q.referenced, p.checked, stack, p.referenced);
    }
  }

  lemma NothingHandled(d: Disk, l: seq<Entry>, checked: set<Ino>, stack: seq<Ino>, referenced: set<Ino>)
    ensures Handled(d, l, 0, checked, stack, referenced)
  {
  }

  // ---- The walk ---------------------------------------------------------------------------------------

  /** Every reachable directory can be read. */
  ghost predicate Readable(d: Disk)
    requires d.Valid()
  {
    forall p :: Reachable(d, p) ==> InRange(d, p) && ListOf(d, p).Some?
  }

  ghost predicate EntriesFit(d: Disk, p: Ino)
    requires d.Valid()
  {
    InRange(d, p) && ListOf(d, p).Some? && EntriesInRange(d, ListOf(d, p).value, |ListOf(d, p).value|)
  }

  /** The directory has been read, and each of its entries has had its effect. */
  ghost predicate Served(d: Disk, v: Ino, checked: set<Ino>, stack: seq<Ino>, referenced: set<Ino>)
    requires d.Valid()
  {
    InRange(d, v) && ListOf(d, v).Some? && Handled(d, ListOf(d, v).value, |ListOf(d, v).value|, checked, stack, referenced)
  }

  /** What holds of the progress and the stack between two directories. */
  ghost predicate Walking(d: Disk, p: Progress, stack: seq<Ino>, entriesOk: bool)
    requires d.Valid()
  {
    && (forall v :: v in p.checked ==> Visited(d, v)) && (forall i :: i in p.referenced ==> NamedSomewhere(d, i))
    && (forall x :: x in stack ==> Reachable(d, x))
    && ROOT in p.referenced && (ROOT in stack || ROOT in p.checked)
    && ((p.checked == {} && stack == [ROOT]) || IsDirectory(d, ROOT))
    && (forall v :: v in p.checked && IsDirectory(d, v) ==> Served(d, v, p.checked, stack, p.referenced))
    && (entriesOk <==> forall v :: v in p.checked && IsDirectory(d, v) ==> EntriesFit(d, v))
  }

  lemma ListIsDirectory(d: Disk, v: Ino)
    requires d.Valid() && InRange(d, v) && ListOf(d, v).Some?
    ensures IsDirectory(d, v)
  {
  }

  /** What has been served stays so: more gets checked, referenced and stacked, and what leaves the stack
      is checked. */
  lemma ServedStays(d: Disk, v: Ino, c0: set<Ino>, s0: seq<Ino>, r0: set<Ino>, c: set<Ino>, s: seq<Ino>, r: set<Ino>)
    requires d.Valid() && Served(d, v, c0, s0, r0) && c0 <= c && r0 <= r && forall x :: x in s0 ==> x in s || x in c
    ensures Served(d, v, c, s, r)
  {
    hide DirList;
  }

  /** One directory from the stack: checked if it was not yet, and read. */
  method VisitDirectory(d: Disk, dnum: Ino, p0: Progress, stack0: seq<Ino>,
                        ghost done0: seq<Ino>, ghost clean0: bool, ghost entriesOk0: bool)
    returns (ok: bool, p: Progress, stack: seq<Ino>, ghost done: seq<Ino>, ghost clean: bool, ghost entriesOk: bool)
    requires Usable(d) && Tracks(d, p0, done0, clean0, entriesOk0) && Walking(d, p0, stack0 + [dnum], entriesOk0)
    ensures ok ==> Tracks(d, p, done, clean, entriesOk) && Walking(d, p, stack, entriesOk)
    ensures ok ==> p0.checked + {dnum} <= p.checked && stack0 <= stack
    ensures ok ==> forall k :: |stack0| <= k < |stack| ==> stack[k] !in p.checked
    ensures !ok ==> !Readable(d)
  {
    hide Tracks, Reachable, Visited, NamedSomewhere, DirList, Served, EntriesFit;
    assert dnum in stack0 + [dnum];
    ReachableInRange(d, dnum);
    p, stack, done, clean, entriesOk := p0, stack0, done0, clean0, entriesOk0;
    if dnum !in p.checked {
      p, clean := CheckOne(d, p, dnum, true, done, clean, entriesOk);
      done := done + [dnum];
    }
    var list := ReadDir(d, NodeOf(d, dnum));
    if list.None? {
      ok := false;
      return;
    }
    ok := true;
    ListIsDirectory(d, dnum);
    DirectoryVisited(d, dnum);
    ghost var q := p;
    entriesOk := entriesOk && EntriesInRange(d, list.value, |list.value|);
    p, stack, done, clean := ScanEntries(d, dnum, list.value, p, stack, done, clean, entriesOk0);
    forall x | x in stack0 + [dnum] ensures x in stack || x in p.checked { assert x in stack0 || x == dnum; }
    forall v | v in p.checked && IsDirectory(d, v) ensures Served(d, v, p.checked, stack, p.referenced) {
      if v == dnum {
        NowServed(d, dnum, list.value, p.checked, stack, p.referenced);
      } else {
        ServedStays(d, v, p0.checked, stack0 + [dnum], p0.referenced, p.checked, stack, p.referenced);
      }
    }
    FitsIfIn(d, dnum, list.value);
    if p0.checked == {} && stack0 + [dnum] == [ROOT] { assert dnum == ROOT; }
  }

  lemma DirectoryVisited(d: Disk, v: Ino)
    requires d.Valid() && Reachable(d, v)
    ensures Visited(d, v)
  {
  }

  lemma NowServed(d: Disk, v: Ino, l: seq<Entry>, checked: set<Ino>, stack: seq<Ino>, referenced: set<Ino>)
    requires d.Valid() && InRange(d, v) && ListOf(d, v) == Some(l) && Handled(d, l, |l|, checked, stack, referenced)
    ensures Served(d, v, checked, stack, referenced)
  {
    hide DirList, Handled;
  }

  lemma FitsIfIn(d: Disk, v: Ino, l: seq<Entry>)
    requires d.Valid() && InRange(d, v) && ListOf(d, v) == Some(l)
    ensures EntriesFit(d, v) <==> EntriesInRange(d, l, |l|)
  {
    hide DirList;
  }

  /** With an empty stack everything visited has been checked, and everything named is referenced. */
  lemma WalkComplete(d: Disk, p: Progress, entriesOk: bool)
    requires d.Valid() && Walking(d, p, [], entriesOk)
    ensures forall v :: v in p.checked <==> Visited(d, v)
    ensures forall i :: InRange(d, i) ==> (i in p.referenced <==> NamedSomewhere(d, i))
    ensures Readable(d) && (entriesOk <==> forall v :: Reachable(d, v) ==> EntriesFit(d, v))
  {
    hide Reachable, DirList, Served, EntriesFit, Child;
    forall a, c | a in p.checked && IsDirectory(d, a) && Child(d, a, c) ensures c in p.checked && IsDirectory(d, c) {
      ServedLists(d, a, c, p.checked, p.referenced);
    }
    var inside := set v | v in p.checked && IsDirectory(d, v);
    forall v | Reachable(d, v) ensures v in p.checked && IsDirectory(d, v) && InRange(d, v) && ListOf(d, v).Some? {
      ReachableInside(d, inside, v);
      ServedHasList(d, v, p.checked, p.referenced);
    }
    forall v | Visited(d, v) ensures v in p.checked {
      if !Reachable(d, v) {
        var a :| Reachable(d, a) && Lists(d, a, v);
        ServedLists(d, a, v, p.checked, p.referenced);
      }
    }
    forall i | InRange(d, i) && NamedSomewhere(d, i) ensures i in p.referenced {
      if i != ROOT {
        var a :| Reachable(d, a) && Mentions(d, a, i);
        ServedMentions(d, a, i, p.checked, p.referenced);
      }
    }
    DirectoriesChecked(d, p.checked);
  }

  lemma DirectoriesChecked(d: Disk, checked: set<Ino>)
    requires d.Valid() && (forall v :: v in checked ==> Visited(d, v))
    requires forall v :: Reachable(d, v) ==> v in checked && IsDirectory(d, v)
    ensures forall v :: v in checked && IsDirectory(d, v) <==> Reachable(d, v)
  {
    hide Reachable, DirList;
  }

  lemma ServedHasList(d: Disk, a: Ino, checked: set<Ino>, referenced: set<Ino>)
    requires d.Valid() && Served(d, a, checked, [], referenced)
    ensures InRange(d, a) && ListOf(d, a).Some?
  {
    hide DirList;
  }

  lemma ServedLists(d: Disk, a: Ino, c: Ino, checked: set<Ino>, referenced: set<Ino>)
    requires d.Valid() && Served(d, a, checked, [], referenced)
    ensures Lists(d, a, c) && InRange(d, c) ==> c in checked
    ensures Child(d, a, c) ==> c in checked && IsDirectory(d, c)
  {
    hide DirList;
  }

  lemma ServedMentions(d: Disk, a: Ino, i: Ino, checked: set<Ino>, referenced: set<Ino>)
    requires d.Valid() && Served(d, a, checked, [], referenced) && Mentions(d, a, i) && InRange(d, i)
    ensures i in referenced
  {
    hide DirList;
  }

  lemma StartWalking(d: Disk)
    requires d.Valid()
    ensures Walking(d, Progress([], map[], {}, {ROOT}), [ROOT], true)
  {
    hide Reachable, DirList, Served;
    RootReachable(d);
  }

  lemma StartTracks(d: Disk)
    requires Usable(d)
    ensures Tracks(d, Progress([], map[], {}, {ROOT}), [], true, true)
  {
  }

  /** All that is checked is an inode. */
  lemma CheckedInRange(d: Disk, p: Progress, done: seq<Ino>, clean: bool, entriesOk: bool)
    requires Usable(d) && Tracks(d, p, done, clean, entriesOk)
    ensures p.checked <= AllInodes(d)
  {
    hide Owned, AllZones;
  }

  /** The walk. A directory found by several entries may be stacked and read more than once, but is checked
      once; the measure is the unchecked inodes, then whether the top has been checked, then the height. */
  method WalkTree(d: Disk)
    returns (ok: bool, p: Progress, ghost done: seq<Ino>, ghost clean: bool, ghost entriesOk: bool)
    requires Usable(d)
    ensures ok <==> Readable(d)
    ensures ok ==> Tracks(d, p, done, clean, entriesOk)
    ensures ok ==> forall v :: v in p.checked <==> Visited(d, v)
    ensures ok ==> forall i :: InRange(d, i) ==> (i in p.referenced <==> NamedSomewhere(d, i))
    ensures ok ==> (entriesOk <==> forall v :: Reachable(d, v) ==> EntriesFit(d, v))
  {
    hide Tracks, Walking, Visited, NamedSomewhere, Readable, EntriesFit, Reachable;
    p, done, clean, entriesOk := Progress([], map[], {}, {ROOT}), [], true, true;
    var stack := [ROOT];
    StartWalking(d);
    StartTracks(d);
    while |stack| > 0
      invariant Tracks(d, p, done, clean, entriesOk) && Walking(d, p, stack, entriesOk) && p.checked <= AllInodes(d)
      decreases AllInodes(d) - p.checked, if |stack| > 0 && stack[|stack| - 1] in p.checked then 1 else 0, |stack|
    {
      var dnum, rest := stack[|stack| - 1], stack[..|stack| - 1];
      assert stack == rest + [dnum];
      ghost var before := p.checked;
      ok, p, stack, done, clean, entriesOk := VisitDirectory(d, dnum, p, rest, done, clean, entriesOk);
      if !ok { return; }
      CheckedInRange(d, p, done, clean, entriesOk);
      assert before != p.checked ==> AllInodes(d) - p.checked < AllInodes(d) - before by {
        if before != p.checked { var x :| x in p.checked && x !in before; }
      }
    }
    ok := true;
    assert stack == [];
    WalkComplete(d, p, entriesOk);
  }

  // ---- Consistency ----------------------------------------------------------------------------------

  /** Inode v by itself: allocated, of a known kind; if it holds data, exactly the blocks of the file are
      mapped, a directory is a whole number of slots, and the zones are allocated data zones, each used
      once. */
  ghost predicate Healthy(d: Disk, v: Ino)
    requires Usable(d)
  {
    && InRange(d, v) && Marked(d, v) && NodeOf(d, v).kind != UnknownType
    && (HoldsData(NodeOf(d, v)) ==> FullyMapped(d, NodeOf(d, v)) && RightDirSize(d, NodeOf(d, v)))
    && GoodZones(d, ZonesOf(d, NodeOf(d, v))) && Distinct(ZonesOf(d, NodeOf(d, v)))
  }

  predicate Uses(d: Disk, v: Ino, z: Zone)
    requires d.Valid()
  {
    InRange(d, v) && z in ZonesOf(d, NodeOf(d, v))
  }

  ghost predicate UsedSomewhere(d: Disk, z: Zone)
    requires d.Valid()
  {
    exists v :: Visited(d, v) && Uses(d, v, z)
  }

  /** The image is consistent. */
  ghost predicate Consistent(d: Disk)
    requires Usable(d)
  {
    && (forall p :: Reachable(d, p) ==> EntriesFit(d, p))
    && (forall v :: Visited(d, v) ==> Healthy(d, v))
    && (forall v, w, z :: Visited(d, v) && Visited(d, w) && Uses(d, v, z) && Uses(d, w, z) ==> v == w)
    && (forall i :: InRange(d, i) && Marked(d, i) ==> NamedSomewhere(d, i))
    && (forall z :: InData(d, z) && ZoneMarked(d, z) ==> UsedSomewhere(d, z))
  }

  lemma DistinctConcat(a: seq<Zone>, b: seq<Zone>)
    ensures Distinct(a + b) <==> Distinct(a) && Distinct(b) && forall z :: z in a ==> z !in b
  {
    var t := a + b;
    if Distinct(t) {
      forall i, j | 0 <= i < j < |a| ensures a[i] != a[j] { assert t[i] == a[i] && t[j] == a[j]; }
      forall i, j | 0 <= i < j < |b| ensures b[i] != b[j] { assert t[|a| + i] == b[i] && t[|a| + j] == b[j]; }
      forall z | z in a ensures z !in b {
        var i :| 0 <= i < |a| && a[i] == z;
        forall j | 0 <= j < |b| ensures b[j] != z { assert t[i] == z && t[|a| + j] == b[j]; }
      }
    }
    if Distinct(a) && Distinct(b) && forall z :: z in a ==> z !in b {
      forall i, j | 0 <= i < j < |t| ensures t[i] != t[j] {
        if i < |a| <= j { assert t[i] in a && t[j] == b[j - |a|]; }
      }
    }
  }

  lemma {:induction false} AllZonesMembers(d: Disk, done: seq<Ino>, z: Zone)
    requires d.Valid() && forall v :: v in done ==> InRange(d, v)
    ensures z in AllZones(d, done) <==> exists v :: v in done && Uses(d, v, z)
  {
    hide ZonesOf;
    if |done| > 0 {
      var init, v := done[..|done| - 1], done[|done| - 1];
      AllZonesMembers(d, init, z);
      assert done == init + [v];
      if z in ZonesOf(d, NodeOf(d, v)) { assert v in done && Uses(d, v, z); }
      if z in AllZones(d, init) {
        var w :| w in init && Uses(d, w, z);
        assert w in done;
      }
    }
  }

  /** Zones met along a sequence of different inodes are distinct exactly if each inode's are and no two
      inodes share one. */
  lemma {:induction false} AllZonesDistinct(d: Disk, done: seq<Ino>)
    requires d.Valid() && (forall v :: v in done ==> InRange(d, v)) && NoDuplicates(done)
    ensures Distinct(AllZones(d, done)) <==>
      && (forall v :: v in done ==> Distinct(ZonesOf(d, NodeOf(d, v))))
      && (forall v, w, z :: v in done && w in done && Uses(d, v, z) && Uses(d, w, z) ==> v == w)
  {
    hide ZonesOf, Distinct;
    if |done| == 0 {
      NothingDistinct();
    } else {
      var init, v := done[..|done| - 1], done[|done| - 1];
      assert done == init + [v];
      AllZonesDistinct(d, init);
      DistinctConcat(AllZones(d, init), ZonesOf(d, NodeOf(d, v)));
      forall z ensures z in AllZones(d, init) <==> exists w :: w in init && Uses(d, w, z) { AllZonesMembers(d, init, z); }
      LastNotBefore(done);
      SharingSplit(d, init, v);
    }
  }

  /** No two of init + [v] share a zone exactly if no two of init do and v shares none with them. */
  lemma SharingSplit(d: Disk, init: seq<Ino>, v: Ino)
    requires d.Valid() && InRange(d, v) && v !in init
    ensures (forall a, b, z :: a in init + [v] && b in init + [v] && Uses(d, a, z) && Uses(d, b, z) ==> a == b)
      <==>
      && (forall a, b, z :: a in init && b in init && Uses(d, a, z) && Uses(d, b, z) ==> a == b)
      && (forall a, z :: a in init && Uses(d, a, z) ==> z !in ZonesOf(d, NodeOf(d, v)))
  {
    hide ZonesOf;
    var done := init + [v];
    assert v in done && forall a :: a in done <==> a in init || a == v;
    if forall a, b, z :: a in done && b in done && Uses(d, a, z) && Uses(d, b, z) ==> a == b {
      forall a, z | a in init && Uses(d, a, z) ensures z !in ZonesOf(d, NodeOf(d, v)) {
        assert a in done && (Uses(d, v, z) <==> z in ZonesOf(d, NodeOf(d, v)));
      }
    }
  }

  lemma NothingDistinct()
    ensures Distinct([])
  {
  }

  lemma LastNotBefore(done: seq<Ino>)
    requires |done| > 0 && NoDuplicates(done)
    ensures NoDuplicates(done[..|done| - 1]) && done[|done| - 1] !in done[..|done| - 1]
  {
  }

  lemma AllZonesGood(d: Disk, done: seq<Ino>)
    requires Usable(d) && forall v :: v in done ==> InRange(d, v)
    ensures GoodZones(d, AllZones(d, done)) <==> forall v :: v in done ==> GoodZones(d, ZonesOf(d, NodeOf(d, v)))
  {
    hide ZonesOf, GoodZone, AllZones;
    var all := AllZones(d, done);
    if GoodZones(d, all) {
      forall v, i | v in done && 0 <= i < |ZonesOf(d, NodeOf(d, v))| ensures GoodZone(d, ZonesOf(d, NodeOf(d, v))[i]) {
        var z := ZonesOf(d, NodeOf(d, v))[i];
        assert z in ZonesOf(d, NodeOf(d, v)) && Uses(d, v, z);
        AllZonesMembers(d, done, z);
        var k :| 0 <= k < |all| && all[k] == z;
      }
    }
    if forall v :: v in done ==> GoodZones(d, ZonesOf(d, NodeOf(d, v))) {
      forall i | 0 <= i < |all| ensures GoodZone(d, all[i]) {
        AllZonesMembers(d, done, all[i]);
        var v :| v in done && Uses(d, v, all[i]);
        var k :| 0 <= k < |ZonesOf(d, NodeOf(d, v))| && ZonesOf(d, NodeOf(d, v))[k] == all[i];
      }
    }
  }

  /** With good zones, size and blocks fit together exactly if the file is fully mapped. */
  lemma SizedIsMapped(d: Disk, f: Inode)
    requires Usable(d) && |f.zones| == 9 && GoodZones(d, ZonesOf(d, f))
    ensures Sized(d, f) <==> (HoldsData(f) ==> FullyMapped(d, f) && RightDirSize(d, f))
  {
    hide Data, Meta, FullyMapped, RightCount;
    if HoldsData(f) {
      forall z | z in Meta(d, f) ensures InData(d, z) {
        var k :| 0 <= k < |Meta(d, f)| && Meta(d, f)[k] == z;
        assert GoodZone(d, ZonesOf(d, f)[|Data(d, f)| + k]);
      }
      CountIsMapping(d, f);
    }
  }

  /** What the walk found, put together. */
  lemma WalkVerdict(d: Disk, p: Progress, done: seq<Ino>, clean: bool, entriesOk: bool)
    requires Usable(d) && Tracks(d, p, done, clean, entriesOk) && forall v :: v in p.checked <==> Visited(d, v)
    ensures p.problems == [] <==>
      && entriesOk && (forall v :: Visited(d, v) ==> Healthy(d, v))
      && (forall v, w, z :: Visited(d, v) && Visited(d, w) && Uses(d, v, z) && Uses(d, w, z) ==> v == w)
    ensures forall z :: z in p.owners <==> InData(d, z) && UsedSomewhere(d, z)
  {
    hide AllZones, GoodZones, Distinct, ZonesOf, Sized, FullyMapped, RightDirSize, Marked, Visited, InData, Uses;
    AllZonesDistinct(d, done);
    AllZonesGood(d, done);
    forall v | v in done && GoodZones(d, ZonesOf(d, NodeOf(d, v)))
      ensures Sized(d, NodeOf(d, v)) <==> (HoldsData(NodeOf(d, v)) ==> FullyMapped(d, NodeOf(d, v)) && RightDirSize(d, NodeOf(d, v)))
    {
      SizedIsMapped(d, NodeOf(d, v));
    }
    forall z ensures z in AllZones(d, done) <==> UsedSomewhere(d, z) { AllZonesMembers(d, done, z); }
  }

  // ---- The check -------------------------------------------------------------------------------------

  /** The inodes up to n that are marked but not referenced, as problems. */
  function Orphans(d: Disk, referenced: set<Ino>, n: nat): (r: seq<Problem>)
    requires Usable(d) && n <= |d.inodes|
    ensures forall i: Ino :: Problem(Orphan, i) in r <==> 1 <= i <= n && Marked(d, i) && i !in referenced
    ensures r == [] <==> forall i :: 1 <= i <= n && Marked(d, i) ==> i in referenced
  {
    hide Marked;
    if n == 0 then []
    else Orphans(d, referenced, n - 1) + if Marked(d, n) && n !in referenced then [Problem(Orphan, n)] else []
  }

  /** The whole check: the walk, then the marked inodes nothing names, then the marked zones nothing uses.
      It fails if a reachable directory cannot be read; otherwise it reports nothing exactly when the image
      is consistent. The report also counts the inodes checked and the zones with an owner. */
  method CheckFs(d: Disk) returns (ok: bool, problems: seq<Problem>, checked: set<Ino>, owned: set<Zone>)
    requires Usable(d)
    ensures ok <==> Readable(d)
    ensures ok ==> (problems == [] <==> Consistent(d))
    ensures ok ==> forall i :: InRange(d, i) && Marked(d, i) && !NamedSomewhere(d, i) ==> Problem(Orphan, i) in problems
    ensures ok ==> ((exists z :: InData(d, z) && ZoneMarked(d, z) && !UsedSomewhere(d, z)) ==> Problem(LostZones, 0) in problems)
    ensures ok ==> (forall v :: v in checked <==> Visited(d, v)) && (forall z :: z in owned <==> InData(d, z) && UsedSomewhere(d, z))
  {
    hide Tracks, Readable, Visited, NamedSomewhere, EntriesFit, Reachable, Healthy, Uses, UsedSomewhere, Marked, ZoneMarked, Orphans;
    var p;
    ghost var done, clean, entriesOk;
    ok, p, done, clean, entriesOk := WalkTree(d);
    problems, checked, owned := p.problems, p.checked, p.owners.Keys;
    if !ok { return; }
    WalkVerdict(d, p, done, clean, entriesOk);
    NoOrphans(d, p.referenced);
    for i := 1 to |d.inodes| + 1
      invariant problems == p.problems + Orphans(d, p.referenced, i - 1)
    {
      OrphansStep(d, p.referenced, i);
      if Marked(d, i) && i !in p.referenced { problems := problems + [Problem(Orphan, i)]; }
    }
    ghost var orphans := Orphans(d, p.referenced, |d.inodes|);
    var lost: seq<Zone> := [];
    for z := d.firstData to d.nzones
      invariant forall x :: x in lost ==> InData(d, x) && ZoneMarked(d, x) && x !in p.owners
      invariant forall x :: d.firstData <= x < z && ZoneMarked(d, x) && x !in p.owners ==> x in lost
    {
      if ZoneMarked(d, z) && z !in p.owners { lost := lost + [z]; }
    }
    if |lost| > 0 {
      assert lost[0] in lost;
      problems := problems + [Problem(LostZones, 0)];
    } else {
      assert forall z :: InData(d, z) && ZoneMarked(d, z) ==> UsedSomewhere(d, z);
    }
  }

  lemma NoOrphans(d: Disk, referenced: set<Ino>)
    requires Usable(d)
    ensures Orphans(d, referenced, 0) == []
  {
  }

  lemma OrphansStep(d: Disk, referenced: set<Ino>, i: Ino)
    requires Usable(d) && 1 <= i <= |d.inodes|
    ensures Orphans(d, referenced, i)
         == Orphans(d, referenced, i - 1) + if Marked(d, i) && i !in referenced then [Problem(Orphan, i)] else []
  {
  }
}
