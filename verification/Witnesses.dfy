/** Inputs on which the programs do not do what one would expect of them. The conditions under which this
    happens, for all inputs, are stated where the programs are modelled. */
module Witnesses {
  import opened Words
  import opened Osada
  import opened Names
  import opened Trees
  import opened TreeSafety
  import opened TreeLookup
  import opened MkdirClaims
  import opened Volumes
  import opened Allocation
  import opened Growth
  import opened Effects
  import F = Frames
  import C = Caches
  import P = PagedMemories
  import R = MemoryRuns
  import O = OrphanedPages
  import W = MissedWrites
  import M = Schedulers
  import K = SchedulerSafety
  import L = SchedulerRuns

  // ---------- files ----------

  /** A read of the last byte of a file answers with nothing. */
  lemma LastByteIsMissed()
    ensures ReadEffect([65, 66], 1, 1) == Content([])
  {
  }

  /** A read of an empty file follows END_OF_FILE. */
  lemma EmptyFileRunsWild()
    ensures ReadEffect([], 0, 1) == WildPointer
  {
  }

  /** A read of a file of 100 bytes whose end passes 2^32 is not clipped: its count comes back negative. */
  lemma RangeWrapsAround()
    ensures ReadEffect(seq(100, _ => 65), 10, 0xffff_ffff) == BadCount(-1)
  {
  }

  function Field(letter: byte): seq<byte> {
    [letter] + seq(16, _ => 0)
  }

  /** A file of 64 bytes in the first of two blocks; the last one is free. */
  function OneFile(): Volume {
    Volume([Node(Regular, Field(97), ROOT, 64, 0)] + seq(FILE_BLOCKS_MOUNT - 1, _ => Node(Deleted, Field(0), ROOT, 0, 0)),
           [END_OF_FILE, 0], [true, false], seq(128, _ => 7))
  }

  function OneChain(): seq<Chain> {
    [[0]] + seq(FILE_BLOCKS_MOUNT - 1, _ => [])
  }

  lemma OneFileWellFormed()
    ensures WellFormed(OneFile(), [false, false], OneChain())
  {
    assert OneChain()[0][0] == 0;
    assert BlocksFor(64) == 1;
  }

  /** One block is wanted, one is free, and it is the last of the device: a write and a truncate that
      enlarge the file by one byte are refused. */
  lemma LastBlockIsRefused(code: Code, u: Volume, w: Volume, chains: seq<Chain>)
    ensures WellFormed(OneFile(), [false, false], OneChain()) && CountFree(OneFile().bits, 0, 2) == 1
    ensures WriteEffect(OneFile(), OneChain(), 0, 64, [1], code, u, w, chains) ==> code == ENoSpc
    ensures TruncateEffect(OneFile(), OneChain(), 0, 65, code, w, chains) ==> code == ENoSpc
  {
    OneFileWellFormed();
    var bits := [true, false];
    assert CountFree(bits, 2, 2) == 0 && CountFree(bits, 1, 2) == 1 && CountFree(bits, 0, 2) == 1;
    assert CountFree(bits, 1, 1) == 0 && CountFree(bits, 0, 1) == 0;
    assert BlocksFor(65) == 2 && OneChain()[0] == [0];
    assert !RoomFor(OneFile(), [0], 65) && !TruncateRoom(OneFile(), [0], 65);
  }

  // ---------- directories ----------

  function TwoLetters(i: nat): Name
    requires i < FILE_BLOCKS_MOUNT
  {
    [100 + i / 64, 100 + i % 64]
  }

  /** Every slot holds an empty file of its own name under the root. */
  function FullTable(): Table {
    seq(FILE_BLOCKS_MOUNT, i requires 0 <= i < FILE_BLOCKS_MOUNT => Node(Regular, Stored(Field(0), TwoLetters(i)), ROOT, 0, END_OF_FILE))
  }

  lemma FullNames(i: nat)
    requires i < FILE_BLOCKS_MOUNT
    ensures NameOf(FullTable()[i].fname) == TwoLetters(i) && Nameable(TwoLetters(i)) && Hangs(FullTable(), i, 1, NONE)
  {
    NameSurvives(Field(0), TwoLetters(i));
    assert Hangs(FullTable(), ROOT, 0, NONE);
  }

  lemma FullIsGood()
    ensures Good(FullTable())
  {
    var t := FullTable();
    forall i | Live(t, i) ensures Rooted(t, i) && Nameable(NameOf(t[i].fname)) { FullNames(i); }
    forall i, j | Live(t, i) && Live(t, j) && NameOf(t[i].fname) == NameOf(t[j].fname) ensures i == j {
      FullNames(i);
      FullNames(j);
      assert TwoLetters(i)[0] == TwoLetters(j)[0] && TwoLetters(i)[1] == TwoLetters(j)[1];
    }
  }

  lemma NotInFull()
    ensures Search(FullTable(), [98], ROOT, ROOT) == NONE && Search(FullTable(), [98], ROOT, NONE) == NONE
    ensures FreeFrom(FullTable(), ROOT, 0) == NONE
  {
    forall i | 0 <= i < FILE_BLOCKS_MOUNT ensures NameOf(FullTable()[i].fname) != [98] {
      FullNames(i);
      assert |TwoLetters(i)| == 2;
    }
  }

  /** mkdir in a full table answers that the directory is there, and it is not. */
  lemma FullTableIsClaimed(junk: seq<byte>)
    requires |junk| == FILENAME_LENGTH
    ensures Good(FullTable()) && |FullTable()| == FILE_BLOCKS_MOUNT
    ensures Mkdir(FullTable(), [[98]], junk) == Outcome(FullTable(), IsDir) && WalkDirs(FullTable(), [[98]], ROOT, NONE).1 == 0
  {
    hide FullTable, Good;
    FullIsGood();
    NotInFull();
    FullLength();
    var names: seq<Name> := [[98]];
    assert names[1..] == [];
  }

  lemma FullLength()
    ensures |FullTable()| == FILE_BLOCKS_MOUNT
  {
  }

  /** A file in the first slot, and nothing else. */
  function FileFirst(): Table {
    [Node(Regular, Field(97), ROOT, 0, END_OF_FILE)] + seq(FILE_BLOCKS_MOUNT - 1, _ => Node(Deleted, Field(0), ROOT, 0, 0))
  }

  lemma FileFirstGood()
    ensures Good(FileFirst()) && Search(FileFirst(), [97], ROOT, NONE) == 0 && FreeFrom(FileFirst(), ROOT, 0) == 1
  {
    var t := FileFirst();
    FieldName(97);
    assert Hangs(t, ROOT, 0, NONE);
    assert Hangs(t, 0, 1, NONE);
    forall s | Live(t, s) ensures s == 0 && Rooted(t, s) {}
    assert Hit(t, 0, [97], ROOT, NONE);
    assert t[0].state == Regular && t[1].state == Deleted;
    assert FreeFrom(t, ROOT, 1) == 1;
  }

  /** mkdir of a file's name answers that the directory is there, although slots are free: the file is
      found first. */
  lemma FileHidesDirectory(junk: seq<byte>)
    requires |junk| == FILENAME_LENGTH
    ensures Good(FileFirst()) && Dead(FileFirst(), 0) > 0
    ensures Mkdir(FileFirst(), [[97]], junk).code == IsDir && WalkDirs(Mkdir(FileFirst(), [[97]], junk).table, [[97]], ROOT, NONE).1 == 0
  {
    hide FileFirst, Good, NameOf, Dead, FreeFrom, Search, MkdirFrom;
    FileFirstGood();
    FileFirstFree();
    var names: seq<Name> := [[97]];
    assert WalkDirs(FileFirst(), names, ROOT, NONE) == (ROOT, 0) && names[0..] == names;
    MkdirClaimsFalsely(FileFirst(), names, junk);
  }

  lemma FileFirstFree()
    ensures |FileFirst()| == FILE_BLOCKS_MOUNT && Dead(FileFirst(), 0) > 0 && !IsDirectory(FileFirst(), 0) && AllRooted(FileFirst())
  {
    var t := FileFirst();
    FileFirstGood();
    assert t[1].state == Deleted;
    assert Dead(t, 0) == Dead(t, 1) && Dead(t, 1) == 1 + Dead(t, 2);
  }

  /** A directory with a child, and free slots. */
  function ParentAndChild(): Table {
    [Node(Directory, Field(97), ROOT, 0, 0), Node(Regular, Field(98), 0, 0, END_OF_FILE)]
      + seq(FILE_BLOCKS_MOUNT - 2, _ => Node(Deleted, Field(0), ROOT, 0, 0))
  }

  lemma FieldName(letter: byte)
    requires letter != 0
    ensures NameOf(Field(letter)) == [letter]
  {
    assert Field(letter)[1..][0] == 0;
  }

  lemma ParentAndChildGood()
    ensures Good(ParentAndChild())
  {
    var t := ParentAndChild();
    FieldName(97);
    FieldName(98);
    assert Hangs(t, ROOT, 0, NONE);
    assert Hangs(t, 0, 1, NONE);
    assert Hangs(t, 1, 2, NONE);
    forall s | Live(t, s) ensures (s == 0 || s == 1) && Rooted(t, s) {}
  }

  /** rmdir of a directory that has a child leaves the child hanging from nothing. */
  lemma ChildIsLost()
    ensures Good(ParentAndChild()) && |ParentAndChild()| == FILE_BLOCKS_MOUNT
    ensures Rmdir(ParentAndChild(), [[97]]).code == Sexe && !AllRooted(Rmdir(ParentAndChild(), [[97]]).table)
  {
    var t := ParentAndChild();
    ParentAndChildGood();
    FieldName(97);
    var names: seq<Name> := [[97]];
    assert names[1..] == [];
    assert SearchDir(t, names[0], ROOT, NONE) == 0;
    assert WalkDirs(t, names, ROOT, NONE) == (0, 1);
    assert Live(t, 1) && t[1].parent == 0;
    RemovalKeepsRootedIff(t, 0);
  }

  lemma ChildIsFound()
    ensures WalkDirs(ParentAndChild(), [[97], [98]], ROOT, NONE) == (0, 1)
    ensures FreeFrom(ParentAndChild(), 0, 0) != NONE && Search(ParentAndChild(), [98], 0, NONE) != NONE
  {
    var t := ParentAndChild();
    FieldName(97);
    FieldName(98);
    var names: seq<Name> := [[97], [98]];
    assert names[1..] == [[98]];
    assert SearchDir(t, names[0], ROOT, NONE) == 0;
    assert Hit(t, 1, [98], 0, NONE);
    assert Search(t, [98], 0, NONE) == 1;
    assert SearchDir(t, names[1], 0, NONE) == NONE;
    assert WalkDirs(t, names[1..], 0, NONE) == (0, 0);
    assert t[2].state == Deleted;
  }

  /** mkdir and mknod of a name that a file has give it to a second node. */
  lemma NameIsGivenTwice(junk: seq<byte>)
    requires |junk| == FILENAME_LENGTH
    ensures Good(ParentAndChild()) && !Good(Mkdir(ParentAndChild(), [[97], [98]], junk).table)
    ensures !Good(Mknod(ParentAndChild(), [[97], [98]], junk).table)
  {
    hide ParentAndChild, Good, MkdirFrom, MkdirFresh, Mknod;
    ParentAndChildGood();
    ChildIsFound();
    MkdirFreshIff(ParentAndChild(), [[97], [98]], ROOT, junk, 0);
    MkdirGood(ParentAndChild(), [[97], [98]], ROOT, junk, 0);
    MknodGood(ParentAndChild(), [[97], [98]], junk);
  }

  // ---------- memory ----------

  /** Two frames of 24 bytes: the first for the table, the second for page 0 of process 1; one entry of the
      cache, which holds what is passed. */
  function OnePage(e: C.Entry, quotas: seq<C.Quota>): P.Memory {
    var zero: seq<byte> := seq(48, _ => 0);
    P.Memory(F.WithOwner(F.WithOwner(zero, 0, F.Owner(-1, 0)), 1, F.Owner(1, 0)), [], [F.Count(1, 1)], [e], quotas, 1)
  }

  const SMALL := P.Config(2, 24, 1)

  lemma OnePageTable(e: C.Entry, quotas: seq<C.Quota>)
    ensures var m := OnePage(e, quotas);
      |m.bytes| == 48 && P.Shaped(SMALL, m) && P.Table(SMALL, m) == [F.Owner(-1, 0), F.Owner(1, 0)]
      && m.bytes[24..] == seq(24, _ => 0)
  {
    var zero: seq<byte> := seq(48, _ => 0);
    F.OwnerChanged(zero, 2, 0, F.Owner(-1, 0));
    F.OwnerChanged(F.WithOwner(zero, 0, F.Owner(-1, 0)), 2, 1, F.Owner(1, 0));
    assert P.Table(SMALL, OnePage(e, quotas)) == [F.Owner(-1, 0), F.Owner(1, 0)];
    assert zero[24..] == seq(24, _ => 0);
  }

  lemma OnePageFrames(m: P.Memory)
    requires |m.bytes| == 48 && P.Shaped(SMALL, m) && P.Table(SMALL, m) == [F.Owner(-1, 0), F.Owner(1, 0)]
    requires m.free == [] && m.counts == [F.Count(1, 1)]
    ensures P.FramesOk(SMALL, m) && P.Owned(SMALL, m, 1, 0) && P.InMemory(SMALL, m, 1, 0) == m.bytes[24..48]
  {
    var t := P.Table(SMALL, m);
    assert F.FindFrame(t, 1, 0, 1) == 1 && F.FindFrame(t, 1, 0, 0) == 1;
    forall p ensures F.PagesOf(m.counts, p) == if p == 1 then 1 else 0 {
      assert m.counts[1..] == [];
    }
    assert F.Page(m.bytes, 1, 24) == m.bytes[24..48];
  }

  const STALE := C.Entry(-1, 0, seq(24, _ => 7), false, 0)

  /** A write of one byte to a page that is not cached puts the page together from that byte and the 23 that
      happen to be in a free entry. */
  lemma StaleBytesStay() returns (m': P.Memory)
    ensures P.Sound(SMALL, OnePage(STALE, []))
    ensures P.Step(SMALL, OnePage(STALE, []), P.Write(1, 0, 0, [1]), P.Success, m')
    ensures !R.Means(SMALL, OnePage(STALE, []), P.Write(1, 0, 0, [1]), P.Success, m')
  {
    hide P.FramesOk, P.CacheOk, P.Owned, P.WriteStep, P.Step, P.Shaped, P.Table, R.Means, F.WithOwner, F.FindFrame, C.QuotaSafe;
    var m := OnePage(STALE, []);
    OnePageTable(STALE, []);
    OnePageFrames(m);
    StaleIsSound(m);
    m' := StaleStep(m);
    NotCached(m);
    W.MissedWriteIff(SMALL, m, 1, 0, 0, [1], 0, P.Success, m');
    assert Splice(m.entries[0].content, 0, [1])[1] == 7;
    assert Splice(P.PageNow(SMALL, m, 1, 0), 0, [1])[1] == m.bytes[24..48][1] == m.bytes[24..][1] == 0;
  }

  lemma NotCached(m: P.Memory)
    requires m.entries == [STALE] && P.Owned(SMALL, m, 1, 0)
    ensures C.FindEntry(m.entries, 1, 0, 0) == C.MISS && P.PageNow(SMALL, m, 1, 0) == P.InMemory(SMALL, m, 1, 0)
  {
  }

  lemma StaleIsSound(m: P.Memory)
    requires m.entries == [STALE] && m.quotas == [] && m.clock == 1 && P.FramesOk(SMALL, m)
    ensures P.Sound(SMALL, m)
  {
    forall i | 0 <= i < |m.entries| ensures P.EntryOk(SMALL, m, i) {}
    forall p | p >= 0 ensures C.Occupied(m.entries, p) == 0 { C.OccupiedWitness(m.entries, p); }
  }

  lemma StaleStep(m: P.Memory) returns (m': P.Memory)
    requires m.entries == [STALE] && m.quotas == [] && m.clock == 1 && P.Owned(SMALL, m, 1, 0)
    ensures P.WriteStep(SMALL, m, 1, 0, 0, [1], 0, P.Success, m') && P.Step(SMALL, m, P.Write(1, 0, 0, [1]), P.Success, m')
  {
    hide P.Owned, F.FindFrame, C.Charged;
    assert C.FindEntry(m.entries, 1, 0, 0) == C.MISS;
    m' := P.Placed(P.Evicted(SMALL, P.ChargedFor(SMALL, m, 1), 0, 1, 0), 0, 1, 0, 0, [1], true);
    assert C.IsVictim(m.entries, C.Exceeded(m.quotas, 1, SMALL.most), 1, 0);
  }

  function CachedPage(): C.Entry {
    C.Entry(1, 0, seq(24, _ => 0), false, 0)
  }

  /** A process ends while one of its pages is cached: the entry belongs to nobody. */
  lemma EntryIsOrphaned(m': P.Memory)
    requires P.FinalizeStep(SMALL, OnePage(CachedPage(), [C.Quota(1, 1)]), 1, P.Success, m')
    ensures P.Sound(SMALL, OnePage(CachedPage(), [C.Quota(1, 1)])) && !P.CacheOk(SMALL, m')
  {
    hide P.FramesOk, P.CacheOk, P.FinalizeStep, P.Shaped, P.Table, P.InMemory, P.Owned, F.WithOwner, F.FindFrame;
    var m := OnePage(CachedPage(), [C.Quota(1, 1)]);
    OnePageTable(CachedPage(), [C.Quota(1, 1)]);
    OnePageFrames(m);
    CachedIsSound(m);
    R.FinalizeKeepsCacheIff(SMALL, m, 1, P.Success, m');
    assert C.Occupied(m.entries, 1) == 1;
  }

  lemma CachedIsSound(m: P.Memory)
    requires m.entries == [CachedPage()] && m.quotas == [C.Quota(1, 1)] && m.clock == 1
    requires P.FramesOk(SMALL, m) && P.Owned(SMALL, m, 1, 0) && P.InMemory(SMALL, m, 1, 0) == seq(24, _ => 0)
    ensures P.Sound(SMALL, m)
  {
    forall i | 0 <= i < |m.entries| ensures P.EntryOk(SMALL, m, i) {
      assert C.FindEntry(m.entries, 1, 0, 0) == 0;
    }
    forall p | p >= 0 ensures C.Occupied(m.entries, p) <= C.Counter(m.quotas, p) {
      assert m.entries[1..] == [] && m.quotas[1..] == [];
    }
  }

  function DirtyPage(): C.Entry {
    C.Entry(1, 0, seq(24, _ => 7), true, 0)
  }

  lemma DirtyIsSound(m: P.Memory)
    requires m.entries == [DirtyPage()] && m.quotas == [C.Quota(1, 1)] && m.clock == 1
    requires P.FramesOk(SMALL, m) && P.Owned(SMALL, m, 1, 0)
    ensures P.Sound(SMALL, m) && C.FindEntry(m.entries, 1, 0, 0) == 0
  {
    forall i | 0 <= i < |m.entries| ensures P.EntryOk(SMALL, m, i) {
      assert C.FindEntry(m.entries, 1, 0, 0) == 0;
    }
    forall p | p >= 0 ensures C.Occupied(m.entries, p) <= C.Counter(m.quotas, p) {
      assert m.entries[1..] == [] && m.quotas[1..] == [];
    }
  }

  /** A process writes sevens and ends; one that starts under its number is granted a page and reads them. */
  lemma OldBytesComeBack(m1: P.Memory, m2: P.Memory, reply: P.Reply, m3: P.Memory)
    requires P.FinalizeStep(SMALL, OnePage(DirtyPage(), [C.Quota(1, 1)]), 1, P.Success, m1)
    requires P.AssignStep(SMALL, m1, 1, 1, P.Success, m2) && P.Step(SMALL, m2, P.Read(1, 0, 0, 1), reply, m3)
    ensures P.Sound(SMALL, OnePage(DirtyPage(), [C.Quota(1, 1)])) && reply == P.Bytes([7])
  {
    hide P.FramesOk, P.CacheOk, P.FinalizeStep, P.AssignStep, P.Step, P.Shaped, P.Table, P.InMemory, P.Owned, F.WithOwner, F.FindFrame, C.FindEntry;
    var m := OnePage(DirtyPage(), [C.Quota(1, 1)]);
    OnePageTable(DirtyPage(), [C.Quota(1, 1)]);
    OnePageFrames(m);
    DirtyIsSound(m);
    O.OldBytesAnswer(SMALL, m, 1, m1, 1, m2, 0, 0, 1, reply, m3);
    assert P.PageNow(SMALL, m, 1, 0)[0..1] == [7];
  }

  /** With 81920 frames of 65536 bytes, the write-back of a page to frame 65536 lands on the table. */
  lemma TableIsOverwritten()
    ensures F.FirstFree(81920, 65536) <= 65536 < 81920 && F.Address(65536, 65536) == 0 && !F.Isolated(81920, 65536)
  {
    F.IsolatedIff(81920, 65536);
    assert !F.Clear(65536, 81920, 65536);
  }

  // ---------- counters ----------

  const MANY := P.Config(4, 24, 40000)

  function Zeros(): seq<byte> {
    seq(24, _ => 0)
  }

  /** Four frames of 24 bytes: two for the table, two for the pages 0 and 1 of process 1. */
  function TwoPages(): seq<byte> {
    var zero: seq<byte> := seq(96, _ => 0);
    F.WithOwner(F.WithOwner(F.WithOwner(F.WithOwner(zero, 0, F.Owner(-1, 0)), 1, F.Owner(-1, 1)), 2, F.Owner(1, 0)), 3, F.Owner(1, 1))
  }

  lemma TwoPagesTable()
    ensures |TwoPages()| == 96 && F.TableOf(TwoPages(), 4) == [F.Owner(-1, 0), F.Owner(-1, 1), F.Owner(1, 0), F.Owner(1, 1)]
    ensures TwoPages()[48..] == seq(48, _ => 0)
  {
    hide F.WithOwner, F.TableOf;
    var zero: seq<byte> := seq(96, _ => 0);
    var b1 := F.WithOwner(zero, 0, F.Owner(-1, 0));
    var b2 := F.WithOwner(b1, 1, F.Owner(-1, 1));
    var b3 := F.WithOwner(b2, 2, F.Owner(1, 0));
    F.OwnerChanged(zero, 4, 0, F.Owner(-1, 0));
    F.OwnerChanged(b1, 4, 1, F.Owner(-1, 1));
    F.OwnerChanged(b2, 4, 2, F.Owner(1, 0));
    F.OwnerChanged(b3, 4, 3, F.Owner(1, 1));
    assert zero[48..] == seq(48, _ => 0);
    assert |F.TableOf(TwoPages(), 4)| == 4;
  }

  /** One entry of the cache; process 1 has read its two pages in turn, `n` times in all. */
  function Reader(n: nat): P.Memory
    requires n <= 0x8000
  {
    P.Memory(TwoPages(), [], [F.Count(1, 2)],
             [if n == 0 then C.Entry(-1, 0, Zeros(), false, 0) else C.Entry(1, (n - 1) % 2, Zeros(), false, n)],
             if n == 0 then [] else [C.Quota(1, if n == 0x8000 then -0x8000 else n)], n + 1)
  }

  lemma ReaderFrames(m: P.Memory)
    requires m.bytes == TwoPages() && m.free == [] && m.counts == [F.Count(1, 2)]
    ensures P.FramesOk(MANY, m)
    ensures forall g :: 0 <= g < 2 ==> P.Owned(MANY, m, 1, g) && P.InMemory(MANY, m, 1, g) == Zeros()
  {
    hide F.WithOwner, F.TableOf, TwoPages;
    TwoPagesTable();
    var t := P.Table(MANY, m);
    forall p ensures F.PagesOf(m.counts, p) == if p == 1 then 2 else 0 {
      assert m.counts[1..] == [];
    }
    assert F.FindFrame(t, 1, 0, 2) == 2 && F.FindFrame(t, 1, 0, 1) == 2 && F.FindFrame(t, 1, 0, 0) == 2;
    assert F.FindFrame(t, 1, 1, 3) == 3 && F.FindFrame(t, 1, 1, 2) == 3 && F.FindFrame(t, 1, 1, 1) == 3 && F.FindFrame(t, 1, 1, 0) == 3;
    assert F.Page(m.bytes, 2, 24) == m.bytes[48..][0..24] == Zeros();
    assert F.Page(m.bytes, 3, 24) == m.bytes[48..][24..48] == Zeros();
  }

  /** The entry a miss of process 1 is given, and what it is charged. */
  lemma ReaderMisses(n: nat)
    requires n < 0x8000
    ensures var m := Reader(n);
      && C.FindEntry(m.entries, 1, n % 2, 0) == C.MISS && C.IsVictim(m.entries, C.Exceeded(m.quotas, 1, 40000), 1, 0)
      && C.Charged(m.quotas, 1, 40000) == Reader(n + 1).quotas
  {
    var m := Reader(n);
    assert n > 0 ==> m.quotas == [C.Quota(1, n)] && m.quotas[1..] == [] && U32(n) == n;
    assert C.FindEntry(m.entries, 1, n % 2, 1) == C.MISS;
  }

  lemma ReaderSteps(n: nat)
    requires n < 0x8000
    ensures P.Step(MANY, Reader(n), P.Read(1, n % 2, 0, 1), P.Bytes([0]), Reader(n + 1))
  {
    hide P.Owned, P.InMemory, P.FrameOf, P.Evicted, P.Placed, P.ChargedFor, C.IsVictim, C.Exceeded, C.FindEntry, F.InBounds, F.Page, P.FramesOk, Reader, Zeros;
    ReaderMisses(n);
    ReaderHas(n);
    ReaderFrames(Reader(n));
    ReaderPage(n);
    ReaderPlaced(n);
    assert P.ReadStep(MANY, Reader(n), 1, n % 2, 0, 1, 0, P.Bytes([0]), Reader(n + 1));
  }

  lemma ReaderHas(n: nat)
    requires n <= 0x8000
    ensures var m := Reader(n);
      m.bytes == TwoPages() && m.free == [] && m.counts == [F.Count(1, 2)] && |m.entries| == 1
      && |m.entries[0].content| == 24 && !m.entries[0].written
    ensures |Zeros()| == 24 && Zeros()[0..1] == [0]
  {
  }

  lemma ReaderPlaced(n: nat)
    requires n < 0x8000 && C.Charged(Reader(n).quotas, 1, 40000) == Reader(n + 1).quotas
    ensures var u := P.ChargedFor(MANY, Reader(n), 1);
      |u.entries| == 1 && |u.entries[0].content| == 24 == |Zeros()| && P.Placed(u, 0, 1, n % 2, 0, Zeros(), false) == Reader(n + 1)
  {
    hide C.Charged, TwoPages;
    assert Splice(Zeros(), 0, Zeros()) == Zeros();
  }

  /** The charge leaves the memory alone, so the page is where it was. */
  lemma ReaderPage(n: nat)
    requires n < 0x8000 && P.Owned(MANY, Reader(n), 1, n % 2) && P.InMemory(MANY, Reader(n), 1, n % 2) == Zeros()
    ensures var u := P.ChargedFor(MANY, Reader(n), 1);
      && P.Evicted(MANY, u, 0, 1, n % 2) == u && F.InBounds(u.bytes, P.FrameOf(MANY, Reader(n), 1, n % 2), 24)
      && F.Page(u.bytes, P.FrameOf(MANY, Reader(n), 1, n % 2), 24) == Zeros()
  {
  }

  /** With a limit of 40000 and a cache of one entry, a process that reads its two pages in turn is charged
      for every read; the 32768th makes its counter negative, although it still holds the entry. */
  lemma CounterRunsNegative()
    ensures P.Sound(MANY, Reader(0))
    ensures R.IsRun(MANY, seq(0x8001, n requires 0 <= n <= 0x8000 => Reader(n)), seq(0x8000, n => P.Read(1, n % 2, 0, 1)), seq(0x8000, _ => P.Bytes([0])))
    ensures C.Counter(Reader(0x8000).quotas, 1) == -0x8000 && C.Occupied(Reader(0x8000).entries, 1) == 1
    ensures !C.QuotaSafe(Reader(0x8000).quotas, Reader(0x8000).entries, C.Limit(40000))
  {
    hide P.Step, P.FramesOk, TwoPages;
    ReaderFrames(Reader(0));
    ReaderSound(Reader(0));
    forall n | 0 <= n < 0x8000 ensures P.Step(MANY, Reader(n), P.Read(1, n % 2, 0, 1), P.Bytes([0]), Reader(n + 1)) { ReaderSteps(n); }
    var e := Reader(0x8000).entries;
    assert e[..0] == [] && C.Occupied(e[..0], 1) == 0;
  }

  lemma ReaderSound(m: P.Memory)
    requires P.FramesOk(MANY, m) && m.entries == [C.Entry(-1, 0, Zeros(), false, 0)] && m.quotas == [] && m.clock == 1
    ensures P.Sound(MANY, m)
  {
    forall i | 0 <= i < |m.entries| ensures P.EntryOk(MANY, m, i) {}
    forall p | p >= 0 ensures C.Occupied(m.entries, p) == 0 { C.OccupiedWitness(m.entries, p); }
  }

  // ---------- nests ----------

  function Numbered(i: nat): M.Pokemon {
    M.Pokemon(65, seq(i, _ => 'a'))
  }

  function Crowd(): (l: seq<M.Pokemon>)
    ensures |l| == 128 && forall i :: 0 <= i < 128 ==> l[i] == Numbered(i)
  {
    seq(128, i requires 0 <= i < 128 => Numbered(i))
  }

  /** A map with one nest of 128 pokemons, before anybody plays. */
  function CrowdedMap(): M.State {
    M.State(map[], map[65 := M.Nest(1, 1, M.AsChar(128), Crowd())], [], [])
  }

  function Members(l: seq<M.Pokemon>): set<M.Pokemon> {
    set p | p in l
  }

  lemma CrowdDistinct(i: nat, j: nat)
    requires i < j < 128
    ensures Crowd()[i] != Crowd()[j]
  {
    assert |Numbered(i).name| == i && |Numbered(j).name| == j;
  }

  /** A nest of 128 pokemons counts -128. */
  lemma NestCountsBackwards()
    ensures K.Inv(CrowdedMap(), [], Members(Crowd()))
    ensures 65 in CrowdedMap().nests && |CrowdedMap().nests[65].pokemons| == 128 && CrowdedMap().nests[65].count == -128
  {
    hide Crowd, Numbered, K.Inv;
    CrowdHere();
    forall i, j | 0 <= i < j < 128 ensures Crowd()[i] != Crowd()[j] { CrowdDistinct(i, j); }
    L.StartsInOrder(CrowdedMap(), Members(Crowd()));
  }

  lemma CrowdHere()
    ensures |Crowd()| == 128 && forall p :: p in Crowd() ==> p.nest == 65
  {
    assert forall i :: 0 <= i < 128 ==> Crowd()[i] == Numbered(i);
  }
}
