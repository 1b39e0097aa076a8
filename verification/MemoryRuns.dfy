/** What every request keeps, what it means for the pages, and what holds over whole runs. */
module MemoryRuns {
  import opened Words
  import opened Frames
  import opened Caches
  import opened PagedMemories

  // ---------- granting pages ----------

  /** Pages in use stay where they are and read the same from memory. */
  ghost predicate PagesStay(c: Config, m: Memory, m': Memory) {
    forall p, g :: Owned(c, m, p, g) ==> Owned(c, m', p, g) && InMemory(c, m', p, g) == InMemory(c, m, p, g)
  }

  function GrantedOne(c: Config, m: Memory, pid: int32): Memory
    requires Shaped(c, m) && m.free != [] && m.free[0] < c.frames && PagesOf(m.counts, pid) <= 0xffff_ffff
  {
    m.(bytes := WithOwner(m.bytes, m.free[0], Owner(pid, PagesOf(m.counts, pid))),
       free := m.free[1..], counts := Granted(m.counts, pid, 1))
  }

  lemma FreeInRange(c: Config, m: Memory)
    requires FramesOk(c, m)
    ensures forall i :: 0 <= i < |m.free| ==> m.free[i] < c.frames
  {
  }

  lemma SameFrame(t: seq<Owner>, f0: nat, o: Owner, p: int, g: int)
    requires f0 < |t| && !(o.pid == p && o.page == g) && !(t[f0].pid == p && t[f0].page == g)
    ensures FindFrame(t[f0 := o], p, g, 0) == FindFrame(t, p, g, 0)
  {
    SameFind(t, t[f0 := o], p, g);
  }

  /** Tables that agree on who holds the page find it in the same frame. */
  lemma SameFind(t: seq<Owner>, t': seq<Owner>, p: int, g: int)
    requires |t'| == |t| && forall f :: 0 <= f < |t| ==> (t[f].pid == p && t[f].page == g <==> t'[f].pid == p && t'[f].page == g)
    ensures FindFrame(t', p, g, 0) == FindFrame(t, p, g, 0)
  {
    var f, f' := FindFrame(t, p, g, 0), FindFrame(t', p, g, 0);
    assert f < |t| ==> t[f].pid == p && t[f].page == g;
    assert f' < |t| ==> t'[f'].pid == p && t'[f'].page == g;
  }

  lemma GrantedOneKeeps(c: Config, m: Memory, pid: int32)
    requires FramesOk(c, m) && pid > 0 && m.free != [] && PagesOf(m.counts, pid) <= 0xffff_ffff
    ensures m.free[0] < c.frames && FramesOk(c, GrantedOne(c, m, pid)) && PagesStay(c, m, GrantedOne(c, m, pid))
  {
    hide FindFrame, Allocated, TableOf, Page, InBounds, WithOwner, Granted;
    FreeInRange(c, m);
    GrantKeeps(Table(c, m), m.free, m.counts, Reserved(c), pid);
    OwnerChanged(m.bytes, c.frames, m.free[0], Owner(pid, PagesOf(m.counts, pid)));
    forall p, g | Owned(c, m, p, g)
      ensures Owned(c, GrantedOne(c, m, pid), p, g) && InMemory(c, GrantedOne(c, m, pid), p, g) == InMemory(c, m, p, g) {
      GrantedOneSpares(c, m, pid, p, g);
    }
  }

  lemma GrantedOneSpares(c: Config, m: Memory, pid: int32, p: int, g: int)
    requires FramesOk(c, m) && pid > 0 && m.free != [] && m.free[0] < c.frames && PagesOf(m.counts, pid) <= 0xffff_ffff
    requires Owned(c, m, p, g)
    ensures Owned(c, GrantedOne(c, m, pid), p, g) && InMemory(c, GrantedOne(c, m, pid), p, g) == InMemory(c, m, p, g)
  {
    hide FindFrame, Allocated, TableOf, Page, InBounds, WithOwner, Granted, Splice, InMemory, FirstFree;
    GrantedOneFrame(c, m, pid, p, g);
    OwnerSparesPages(m.bytes, c.frames, c.size, m.free[0], Owner(pid, PagesOf(m.counts, pid)), FrameOf(c, m, p, g));
    SamePlace(c, m, GrantedOne(c, m, pid), p, g);
  }

  lemma GrantedOneFrame(c: Config, m: Memory, pid: int32, p: int, g: int)
    requires FramesOk(c, m) && pid > 0 && m.free != [] && m.free[0] < c.frames && PagesOf(m.counts, pid) <= 0xffff_ffff
    requires Owned(c, m, p, g)
    ensures FrameOf(c, GrantedOne(c, m, pid), p, g) == FrameOf(c, m, p, g)
  {
    hide FindFrame, Allocated, Page, InBounds, WithOwner, Granted, FirstFree;
    var f0, o := m.free[0], Owner(pid, PagesOf(m.counts, pid));
    OwnerChanged(m.bytes, c.frames, f0, o);
    OwnedNotNew(c, m, pid, p, g);
    SameFrame(Table(c, m), f0, o, p, g);
  }

  /** A page found in the same frame, which holds the same bytes. */
  lemma SamePlace(c: Config, m: Memory, m': Memory, p: int, g: int)
    requires Owned(c, m, p, g) && Shaped(c, m') && FrameOf(c, m', p, g) == FrameOf(c, m, p, g)
    requires InBounds(m'.bytes, FrameOf(c, m, p, g), c.size)
    requires Page(m'.bytes, FrameOf(c, m, p, g), c.size) == Page(m.bytes, FrameOf(c, m, p, g), c.size)
    ensures Owned(c, m', p, g) && InMemory(c, m', p, g) == InMemory(c, m, p, g)
  {
  }

  /** A page in use is neither the next one of its process nor in a free frame. */
  lemma OwnedNotNew(c: Config, m: Memory, pid: int32, p: int, g: int)
    requires FramesOk(c, m) && pid > 0 && m.free != [] && Owned(c, m, p, g)
    ensures g >= 0 && !(p == pid && g == PagesOf(m.counts, pid))
    ensures m.free[0] < |Table(c, m)| && !(Table(c, m)[m.free[0]].pid == p && Table(c, m)[m.free[0]].page == g)
  {
    OwnsExactly(Table(c, m), m.free, m.counts, Reserved(c), p, g);
  }

  lemma {:induction false} GrantedTwice(counts: seq<Count>, pid: int, n: nat)
    ensures Granted(Granted(counts, pid, 1), pid, n) == Granted(counts, pid, n + 1)
  {
    if counts != [] && counts[0].pid != pid { GrantedTwice(counts[1..], pid, n); }
  }

  function GrantedAll(c: Config, m: Memory, pid: int32, n: nat): Memory
    requires Shaped(c, m) && n <= |m.free| && PagesOf(m.counts, pid) + n <= 0xffff_ffff
    requires forall i :: 0 <= i < |m.free| ==> m.free[i] < c.frames
  {
    m.(bytes := Granting(m.bytes, c.frames, m.free, pid, PagesOf(m.counts, pid), n),
       free := m.free[n..], counts := Granted(m.counts, pid, n))
  }

  lemma GrantedNone(c: Config, m: Memory, pid: int32)
    requires FramesOk(c, m) && pid > 0
    ensures FramesOk(c, m.(counts := Granted(m.counts, pid, 0)))
  {
    hide FindFrame, Granted;
    GrantedOnce(m.counts, pid, 0);
    forall p ensures PagesOf(Granted(m.counts, pid, 0), p) == PagesOf(m.counts, p) {
      GrantedCounts(m.counts, pid, 0, p);
    }
  }

  /** Granting `n` pages keeps frames and pages matching, and leaves every page in use alone. */
  lemma {:induction false} GrantedAllKeeps(c: Config, m: Memory, pid: int32, n: nat)
    requires FramesOk(c, m) && pid > 0 && n <= |m.free| && PagesOf(m.counts, pid) + n <= 0xffff_ffff
    requires forall i :: 0 <= i < |m.free| ==> m.free[i] < c.frames
    ensures FramesOk(c, GrantedAll(c, m, pid, n)) && PagesStay(c, m, GrantedAll(c, m, pid, n))
    decreases n
  {
    hide FindFrame, Allocated, TableOf, Page, InBounds, WithOwner, Granted, InMemory;
    if n == 0 {
      GrantedNone(c, m, pid);
      assert m.free[0..] == m.free;
      NoneStay(c, m, Granted(m.counts, pid, 0));
    } else {
      GrantedOneKeeps(c, m, pid);
      GrantedCounts(m.counts, pid, 1, pid);
      GrantedTwice(m.counts, pid, n - 1);
      var m1 := GrantedOne(c, m, pid);
      assert m1.free[n - 1..] == m.free[n..];
      GrantedAllKeeps(c, m1, pid, n - 1);
      assert GrantedAll(c, m1, pid, n - 1) == GrantedAll(c, m, pid, n);
    }
  }

  lemma NoneStay(c: Config, m: Memory, counts: seq<Count>)
    requires Shaped(c, m)
    ensures PagesStay(c, m, m.(counts := counts))
  {
  }

  /** What a grant adds: `n` pages more for `pid`, none for anyone else; a refused one changes nothing. */
  lemma AssignGrants(c: Config, m: Memory, pid: int, pages: int, reply: Reply, m': Memory)
    requires FramesOk(c, m) && AssignStep(c, m, pid, pages, reply, m')
    ensures FramesOk(c, m') && PagesStay(c, m, m')
    ensures reply == NoSpace <==> |m.free| < pages
    ensures reply == NoSpace ==> m' == m
    ensures reply != NoSpace ==>
      |m'.free| == |m.free| - Wanted(pages) && forall p :: PagesOf(m'.counts, p) == PagesOf(m.counts, p) + if p == pid then Wanted(pages) else 0
  {
    hide FindFrame, Allocated, TableOf, Page, InBounds, WithOwner, Granted, Granting;
    if |m.free| >= pages {
      GrantedAllKeeps(c, m, pid, Wanted(pages));
      forall p ensures PagesOf(m'.counts, p) == PagesOf(m.counts, p) + if p == pid then Wanted(pages) else 0 {
        GrantedCounts(m.counts, pid, Wanted(pages), p);
      }
    } else {
      NoneStay(c, m, m.counts);
    }
  }

  // ---------- ending a process ----------

  lemma {:induction false} FreeingTable(bytes: seq<byte>, frames: nat, pid: int, from: nat)
    requires RECORD * frames <= |bytes| && from <= frames
    ensures var t, t' := TableOf(bytes, frames), TableOf(Freeing(bytes, frames, pid, from), frames);
      forall f :: 0 <= f < frames ==> t'[f] == if f >= from && t[f].pid == pid then FREE else t[f]
    ensures Freeing(bytes, frames, pid, from)[RECORD * frames..] == bytes[RECORD * frames..]
    decreases frames - from
  {
    hide OwnerAt, WithOwner;
    if from < frames {
      var next := if OwnerAt(bytes, from).pid == pid then WithOwner(bytes, from, FREE) else bytes;
      if OwnerAt(bytes, from).pid == pid { OwnerChanged(bytes, frames, from, FREE); }
      FreeingTable(next, frames, pid, from + 1);
    }
  }

  /** Other processes' pages stay where they are and read the same from memory. */
  ghost predicate OthersStay(c: Config, m: Memory, m': Memory, pid: int) {
    forall p, g :: Owned(c, m, p, g) && p != pid ==> Owned(c, m', p, g) && InMemory(c, m', p, g) == InMemory(c, m, p, g)
  }

  lemma SamePage(a: seq<byte>, b: seq<byte>, frames: nat, size: nat, f: nat)
    requires Shape(a, frames, size) && Shape(b, frames, size) && RECORD * frames <= |a|
    requires a[RECORD * frames..] == b[RECORD * frames..] && FirstFree(frames, size) <= f < frames
    ensures InBounds(a, f, size) && InBounds(b, f, size) && Page(a, f, size) == Page(b, f, size)
  {
    TableBelow(frames, size);
    MulLess(f, frames, size);
    MulMono(FirstFree(frames, size), f, size);
    assert a[RECORD * frames..][f * size - RECORD * frames..f * size - RECORD * frames + size]
        == b[RECORD * frames..][f * size - RECORD * frames..f * size - RECORD * frames + size];
  }

  lemma FreedFrame(t: seq<Owner>, pid: int, p: int, g: int)
    requires p != pid && p > 0
    ensures FindFrame(Freed(t, pid), p, g, 0) == FindFrame(t, p, g, 0)
  {
    SameFind(t, Freed(t, pid), p, g);
  }

  /** Ending a process frees its frames, all of them and no other, and its pages are gone. */
  lemma FinalizeFrees(c: Config, m: Memory, pid: int, reply: Reply, m': Memory)
    requires FramesOk(c, m) && FinalizeStep(c, m, pid, reply, m')
    ensures FramesOk(c, m') && OthersStay(c, m, m', pid)
    ensures forall g :: !Owned(c, m', pid, g)
    ensures Table(c, m') == Freed(Table(c, m), pid)
  {
    hide FindFrame, Allocated, TableOf, Page, InBounds, FramesOf;
    FreeingTable(m.bytes, c.frames, pid, 0);
    assert Table(c, m') == Freed(Table(c, m), pid);
    EndKeeps(Table(c, m), m.free, m.counts, Reserved(c), pid);
    forall p, g | Owned(c, m, p, g) && p != pid ensures Owned(c, m', p, g) && InMemory(c, m', p, g) == InMemory(c, m, p, g) {
      FreedFrame(Table(c, m), pid, p, g);
      SamePage(m.bytes, m'.bytes, c.frames, c.size, FrameOf(c, m, p, g));
    }
  }

  /** The cache still belongs to living processes after one ends exactly when it held none of its pages. */
  lemma FinalizeKeepsCacheIff(c: Config, m: Memory, pid: int, reply: Reply, m': Memory)
    requires FramesOk(c, m) && CacheOk(c, m) && FinalizeStep(c, m, pid, reply, m')
    ensures CacheOk(c, m') <==> Occupied(m.entries, pid) == 0
  {
    hide FindFrame, Allocated, TableOf, Page, InBounds, InMemory, FinalizeStep;
    FinalizeFrees(c, m, pid, reply, m');
    FinalizeEntries(c, m, pid, reply, m');
    OccupiedWitness(m.entries, pid);
    if Occupied(m.entries, pid) == 0 {
      forall i | 0 <= i < |m'.entries| ensures EntryOk(c, m', i) {
        assert EntryOk(c, m, i) && m.entries[i].pid != pid;
      }
    } else {
      var i :| 0 <= i < |m.entries| && m.entries[i].pid == pid;
      assert !EntryOk(c, m', i);
    }
  }

  lemma FinalizeEntries(c: Config, m: Memory, pid: int, reply: Reply, m': Memory)
    requires FinalizeStep(c, m, pid, reply, m')
    ensures pid > 0 && m'.entries == m.entries && m'.clock == m.clock && m'.quotas == m.quotas && reply != Stuck
  {
  }

  /** Ending a process without cached pages leaves everyone else's pages as they were. */
  lemma FinalizeServes(c: Config, m: Memory, pid: int, reply: Reply, m': Memory)
    requires FramesOk(c, m) && CacheOk(c, m) && FinalizeStep(c, m, pid, reply, m') && Occupied(m.entries, pid) == 0
    ensures FramesOk(c, m') && CacheOk(c, m')
    ensures forall p, g :: Owned(c, m, p, g) && p != pid ==> Owned(c, m', p, g) && PageNow(c, m', p, g) == PageNow(c, m, p, g)
  {
    hide FramesOk, CacheOk, FinalizeStep, InMemory, Owned, Occupied;
    FinalizeFrees(c, m, pid, reply, m');
    FinalizeKeepsCacheIff(c, m, pid, reply, m');
    FinalizeEntries(c, m, pid, reply, m');
  }

  /** A cache over pages that stay is still in order. */
  lemma CacheStays(c: Config, m: Memory, m': Memory)
    requires CacheOk(c, m) && PagesStay(c, m, m') && m'.entries == m.entries && m'.clock == m.clock
    ensures CacheOk(c, m') && forall p, g :: Owned(c, m, p, g) ==> PageNow(c, m', p, g) == PageNow(c, m, p, g)
  {
    hide InMemory, Owned;
    forall i | 0 <= i < |m'.entries| ensures EntryOk(c, m', i) {
      assert EntryOk(c, m, i);
    }
  }

  // ---------- reads and writes ----------

  /** A write of a page that is not cached covers all of it. */
  predicate WholeOnMiss(c: Config, m: Memory, req: Request) {
    req.Write? && FindEntry(m.entries, req.pid, req.page, 0) == MISS ==> |req.buffer| == c.size
  }

  /** What a request makes of one page. */
  function After(req: Request, p: int, g: int, before: seq<byte>): seq<byte> {
    if req.Write? && p == req.pid && g == req.page && req.offset + |req.buffer| <= |before|
    then Splice(before, req.offset, req.buffer) else before
  }

  /** The request does not end the process. */
  predicate Survives(req: Request, p: int) {
    !(req.Finalize? && p == req.pid)
  }

  ghost predicate Means(c: Config, m: Memory, req: Request, reply: Reply, m': Memory) {
    && (forall p, g :: Owned(c, m, p, g) && Survives(req, p) ==>
         Owned(c, m', p, g) && PageNow(c, m', p, g) == After(req, p, g, PageNow(c, m, p, g)))
    && (req.Read? ==>
         && Owned(c, m, req.pid, req.page) && req.offset + req.size <= |PageNow(c, m, req.pid, req.page)|
         && reply == Bytes(PageNow(c, m, req.pid, req.page)[req.offset..req.offset + req.size]))
  }

  lemma PageSize(c: Config, m: Memory, p: int, g: int)
    requires CacheOk(c, m) && Owned(c, m, p, g)
    ensures |PageNow(c, m, p, g)| == c.size
  {
    var i := FindEntry(m.entries, p, g, 0);
    if i != MISS { assert EntryOk(c, m, i); }
  }

  lemma ChargeChangesNothing(c: Config, m: Memory, pid: int)
    requires FramesOk(c, m) && CacheOk(c, m)
    ensures FramesOk(c, ChargedFor(c, m, pid)) && CacheOk(c, ChargedFor(c, m, pid))
    ensures forall p, g :: Owned(c, m, p, g) ==> Owned(c, ChargedFor(c, m, pid), p, g) && PageNow(c, ChargedFor(c, m, pid), p, g) == PageNow(c, m, p, g)
  {
    hide CacheOk, InMemory, Owned, PageNow;
    ChargeMemory(c, m, pid);
    CacheStays(c, m, ChargedFor(c, m, pid));
  }

  lemma ChargeMemory(c: Config, m: Memory, pid: int)
    ensures PagesStay(c, m, ChargedFor(c, m, pid))
  {
  }

  lemma WriteHit(c: Config, m: Memory, pid: int, page: int, offset: nat, buffer: seq<byte>, r: int, reply: Reply, m': Memory)
    requires FramesOk(c, m) && CacheOk(c, m) && WriteStep(c, m, pid, page, offset, buffer, r, reply, m')
    requires FindEntry(m.entries, pid, page, 0) != MISS
    ensures FramesOk(c, m') && CacheOk(c, m') && Means(c, m, Write(pid, page, offset, buffer), reply, m')
  {
    hide FramesOk, CacheOk, InMemory, FindFrame, InBounds;
    var i := FindEntry(m.entries, pid, page, 0);
    HitReads(c, m, i, Entry(pid, page, Splice(m.entries[i].content, offset, buffer), true, m.clock), m');
  }

  lemma ReadHit(c: Config, m: Memory, pid: int, page: int, offset: nat, size: nat, r: int, reply: Reply, m': Memory)
    requires FramesOk(c, m) && CacheOk(c, m) && ReadStep(c, m, pid, page, offset, size, r, reply, m')
    requires FindEntry(m.entries, pid, page, 0) != MISS
    ensures FramesOk(c, m') && CacheOk(c, m') && Means(c, m, Read(pid, page, offset, size), reply, m')
  {
    hide FramesOk, CacheOk, InMemory, FindFrame, InBounds;
    var i := FindEntry(m.entries, pid, page, 0);
    HitReads(c, m, i, m.entries[i].(lastUsed := m.clock), m');
  }

  /** The page reads as the buffer laid over what the entry held before; every other page is untouched. */
  lemma MissReads(c: Config, m: Memory, pid: int, page: int, offset: nat, buffer: seq<byte>, r: int, reply: Reply, m': Memory, p: int, g: int)
    requires FramesOk(c, m) && CacheOk(c, m) && WriteStep(c, m, pid, page, offset, buffer, r, reply, m')
    requires FindEntry(m.entries, pid, page, 0) == MISS && r != MISS && Owned(c, m, p, g)
    ensures CanPlace(c, m, r, offset, |buffer|) && Owned(c, m', p, g)
    ensures PageNow(c, m', p, g) == if p == pid && g == page then Splice(m.entries[r].content, offset, buffer) else PageNow(c, m, p, g)
  {
    hide FramesOk, CacheOk, InMemory, FindFrame, InBounds, IsVictim;
    ChargeChangesNothing(c, m, pid);
    var q := ChargedFor(c, m, pid);
    EvictedKeeps(c, q, r, pid, page);
    var u := Evicted(c, q, r, pid, page);
    var content := Splice(m.entries[r].content, offset, buffer);
    assert u.entries == m.entries && Filled(c, u, r, pid, page, content, true, m');
    FilledReads(c, q, u, r, pid, page, content, true, m', p, g);
  }

  lemma WriteMiss(c: Config, m: Memory, pid: int, page: int, offset: nat, buffer: seq<byte>, r: int, reply: Reply, m': Memory)
    requires FramesOk(c, m) && CacheOk(c, m) && WriteStep(c, m, pid, page, offset, buffer, r, reply, m')
    requires FindEntry(m.entries, pid, page, 0) == MISS && r != MISS
    ensures FramesOk(c, m') && CacheOk(c, m')
    ensures |buffer| == c.size ==> Means(c, m, Write(pid, page, offset, buffer), reply, m')
  {
    WriteMissKeeps(c, m, pid, page, offset, buffer, r, reply, m');
    hide FramesOk, CacheOk, PageNow, Owned;
    if |buffer| == c.size {
      forall p, g | Owned(c, m, p, g)
        ensures Owned(c, m', p, g) && PageNow(c, m', p, g) == After(Write(pid, page, offset, buffer), p, g, PageNow(c, m, p, g)) {
        MissReads(c, m, pid, page, offset, buffer, r, reply, m', p, g);
        PageSize(c, m, p, g);
        SpliceCovers(m.entries[r].content, PageNow(c, m, p, g), offset, buffer);
      }
    }
  }

  lemma WriteMissKeeps(c: Config, m: Memory, pid: int, page: int, offset: nat, buffer: seq<byte>, r: int, reply: Reply, m': Memory)
    requires FramesOk(c, m) && CacheOk(c, m) && WriteStep(c, m, pid, page, offset, buffer, r, reply, m')
    requires FindEntry(m.entries, pid, page, 0) == MISS && r != MISS
    ensures FramesOk(c, m') && CacheOk(c, m')
  {
    hide FramesOk, CacheOk, InMemory, FindFrame, InBounds, IsVictim;
    ChargeChangesNothing(c, m, pid);
    var q := ChargedFor(c, m, pid);
    EvictedKeeps(c, q, r, pid, page);
    var u := Evicted(c, q, r, pid, page);
    var content := Splice(m.entries[r].content, offset, buffer);
    assert u.entries == m.entries && Filled(c, u, r, pid, page, content, true, m');
    FilledEntries(c, q, u, r, pid, page, content, true, m');
  }

  lemma SpliceCovers(a: seq<byte>, b: seq<byte>, offset: nat, buffer: seq<byte>)
    requires |a| == |b| == |buffer| && offset + |buffer| <= |a|
    ensures Splice(a, offset, buffer) == Splice(b, offset, buffer)
  {
  }

  lemma SpliceWhole(page: seq<byte>, buffer: seq<byte>)
    requires |buffer| == |page|
    ensures Splice(page, 0, buffer) == buffer
  {
  }

  /** The page a missed read copies into its entry is the one the process sees. */
  lemma ReadMissFills(c: Config, m: Memory, pid: int, page: int, offset: nat, size: nat, r: int, reply: Reply, m': Memory) returns (found: seq<byte>)
    requires FramesOk(c, m) && CacheOk(c, m) && ReadStep(c, m, pid, page, offset, size, r, reply, m')
    requires FindEntry(m.entries, pid, page, 0) == MISS && r != MISS
    ensures var q := ChargedFor(c, m, pid);
      && CanPlace(c, q, r, 0, 0) && Owned(c, m, pid, page)
      && Filled(c, Evicted(c, q, r, pid, page), r, pid, page, found, false, m')
      && found == PageNow(c, m, pid, page)
      && offset + size <= |found| && reply == Bytes(found[offset..offset + size])
  {
    hide FramesOk, CacheOk, FindFrame, IsVictim, Page, Splice, EntryOk, TableOf;
    ChargeChangesNothing(c, m, pid);
    var q := ChargedFor(c, m, pid);
    EvictedKeeps(c, q, r, pid, page);
    var u := Evicted(c, q, r, pid, page);
    found := Page(u.bytes, FrameOf(c, m, pid, page), c.size);
    SpliceWhole(m.entries[r].content, found);
    assert !Holds(m.entries, r, pid, page);
  }

  lemma ReadMiss(c: Config, m: Memory, pid: int, page: int, offset: nat, size: nat, r: int, reply: Reply, m': Memory)
    requires FramesOk(c, m) && CacheOk(c, m) && ReadStep(c, m, pid, page, offset, size, r, reply, m')
    requires FindEntry(m.entries, pid, page, 0) == MISS && r != MISS
    ensures FramesOk(c, m') && CacheOk(c, m') && Means(c, m, Read(pid, page, offset, size), reply, m')
  {
    hide FramesOk, CacheOk, Owned, PageNow, ReadStep, Filled, Evicted;
    ChargeChangesNothing(c, m, pid);
    var q := ChargedFor(c, m, pid);
    var found := ReadMissFills(c, m, pid, page, offset, size, r, reply, m');
    var u := Evicted(c, q, r, pid, page);
    FilledEntries(c, q, u, r, pid, page, found, false, m');
    forall p, g | Owned(c, m, p, g)
      ensures Owned(c, m', p, g) && PageNow(c, m', p, g) == PageNow(c, m, p, g) {
      FilledReads(c, q, u, r, pid, page, found, false, m', p, g);
    }
  }

  // ---------- any request ----------

  /** Replacing an entry by one of the same process changes no occupancy. */
  lemma SameOccupant(qs: seq<Quota>, es: seq<Entry>, limit: nat, i: nat, e: Entry)
    requires i < |es| && e.pid == es[i].pid
    ensures QuotaSafe(qs, es, limit) ==> QuotaSafe(qs, es[i := e], limit)
    ensures Snug(qs, es) ==> Snug(qs, es[i := e])
  {
    hide Occupied, Counter, CountersOk;
    forall p ensures Occupied(es[i := e], p) == Occupied(es, p) {
      OccupiedUpdate(es, i, e, p);
    }
  }

  lemma ChargedSafeIff(qs: seq<Quota>, es: seq<Entry>, most: nat, pid: int)
    requires QuotaSafe(qs, es, Limit(most))
    ensures QuotaSafe(Charged(qs, pid, most), es, Limit(most)) <==> Countable(qs, pid, most)
  {
    hide Occupied, Counter, CountersOk, Charged, Exceeded;
    if Countable(qs, pid, most) {
      ChargedOk(qs, pid, most);
      forall p | p >= 0 ensures Occupied(es, p) <= Counter(Charged(qs, pid, most), p) {
        ChargedCounter(qs, pid, most, p);
        CounterRoom(qs, Limit(most), p);
      }
    } else {
      WrapsAround(qs, most, pid);
    }
  }

  /** What reads and writes do to entries and counters: a hit renews its own entry, a miss charges its
      process and puts the page in the victim's entry. */
  ghost predicate EntryStep(c: Config, m: Memory, pid: int, page: int, r: int, reply: Reply, m': Memory) {
    var i := FindEntry(m.entries, pid, page, 0);
    if i != MISS then
      m'.quotas == m.quotas && reply != Stuck && |m'.entries| == |m.entries| &&
      m'.entries == m.entries[i := m'.entries[i]] && m'.entries[i].pid == pid && m'.entries[i].page == page
    else
      && IsVictim(m.entries, Exceeded(m.quotas, pid, c.most), pid, r)
      && m'.quotas == Charged(m.quotas, pid, c.most)
      && (reply == Stuck <==> r == MISS)
      && (r == MISS ==> m'.entries == m.entries)
      && (r != MISS ==>
           0 <= r < |m.entries| == |m'.entries| &&
           m'.entries == m.entries[r := m'.entries[r]] && m'.entries[r].pid == pid)
  }

  lemma WriteEntry(c: Config, m: Memory, pid: int, page: int, offset: nat, buffer: seq<byte>, r: int, reply: Reply, m': Memory)
    requires WriteStep(c, m, pid, page, offset, buffer, r, reply, m')
    ensures pid > 0 && EntryStep(c, m, pid, page, r, reply, m')
  {
    hide IsVictim, Charged, FindFrame, Page, InBounds;
  }

  lemma ReadEntry(c: Config, m: Memory, pid: int, page: int, offset: nat, size: nat, r: int, reply: Reply, m': Memory)
    requires ReadStep(c, m, pid, page, offset, size, r, reply, m')
    ensures pid > 0 && EntryStep(c, m, pid, page, r, reply, m')
  {
    hide IsVictim, Charged, FindFrame, Page, InBounds;
  }

  lemma EntryStepSafe(c: Config, m: Memory, pid: int, page: int, r: int, reply: Reply, m': Memory)
    requires EntryStep(c, m, pid, page, r, reply, m') && QuotaSafe(m.quotas, m.entries, Limit(c.most))
    ensures QuotaSafe(m'.quotas, m'.entries, Limit(c.most)) <==>
      FindEntry(m.entries, pid, page, 0) != MISS || Countable(m.quotas, pid, c.most)
  {
    hide QuotaSafe, IsVictim, Charged, Exceeded, Countable;
    var i := FindEntry(m.entries, pid, page, 0);
    if i != MISS {
      assert Holds(m.entries, i, pid, page);
      SameOccupant(m.quotas, m.entries, Limit(c.most), i, m'.entries[i]);
    } else if r != MISS {
      VictimKeepsQuotasIff(m.quotas, m.entries, c.most, pid, r, m'.entries[r]);
    } else {
      ChargedSafeIff(m.quotas, m.entries, c.most, pid);
    }
  }

  lemma AssignEntries(c: Config, m: Memory, pid: int, pages: int, reply: Reply, m': Memory)
    requires AssignStep(c, m, pid, pages, reply, m')
    ensures m'.entries == m.entries && m'.quotas == m.quotas && m'.clock == m.clock && reply != Stuck
  {
  }

  /** A read or a write that finds its page in the cache, or whose process can be charged. */
  predicate Chargeable(c: Config, m: Memory, req: Request) {
    (req.Read? || req.Write?) && FindEntry(m.entries, req.pid, req.page, 0) == MISS ==> Countable(m.quotas, req.pid, c.most)
  }

  /** No request, `finalize` included, lets a process hold more entries than it was charged for, or be
      charged for more than the limit, unless a charge wraps a counter around. */
  lemma StepKeepsQuotasIff(c: Config, m: Memory, req: Request, reply: Reply, m': Memory)
    requires Step(c, m, req, reply, m') && QuotaSafe(m.quotas, m.entries, Limit(c.most))
    ensures QuotaSafe(m'.quotas, m'.entries, Limit(c.most)) <==> Chargeable(c, m, req)
  {
    hide QuotaSafe, EntryStep, WriteStep, ReadStep, AssignStep, FinalizeStep, Countable;
    match req {
      case Assign(pid, pages) => AssignEntries(c, m, pid, pages, reply, m');
      case Finalize(pid) => FinalizeEntries(c, m, pid, reply, m');
      case Write(pid, page, offset, buffer) =>
        var r :| WriteStep(c, m, pid, page, offset, buffer, r, reply, m');
        WriteEntry(c, m, pid, page, offset, buffer, r, reply, m');
        EntryStepSafe(c, m, pid, page, r, reply, m');
      case Read(pid, page, offset, size) =>
        var r :| ReadStep(c, m, pid, page, offset, size, r, reply, m');
        ReadEntry(c, m, pid, page, offset, size, r, reply, m');
        EntryStepSafe(c, m, pid, page, r, reply, m');
    }
  }

  lemma StuckWrite(c: Config, m: Memory, pid: int, page: int, offset: nat, buffer: seq<byte>, r: int, reply: Reply, m': Memory)
    requires WriteStep(c, m, pid, page, offset, buffer, r, reply, m') && FindEntry(m.entries, pid, page, 0) == MISS && r == MISS
    ensures reply == Stuck && m' == ChargedFor(c, m, pid)
  {
  }

  lemma StuckRead(c: Config, m: Memory, pid: int, page: int, offset: nat, size: nat, r: int, reply: Reply, m': Memory)
    requires ReadStep(c, m, pid, page, offset, size, r, reply, m') && FindEntry(m.entries, pid, page, 0) == MISS && r == MISS
    ensures reply == Stuck && m' == ChargedFor(c, m, pid)
  {
  }

  /** A process that ends has no page in the cache. */
  predicate EndsUncached(m: Memory, req: Request) {
    req.Finalize? ==> Occupied(m.entries, req.pid) == 0
  }

  /** Any request keeps frames and cache in order, if a process that ends has no page in the cache; with an
      entry to use, and a missed write covering its page, it does to the pages what a flat store would. */
  lemma StepServes(c: Config, m: Memory, req: Request, reply: Reply, m': Memory)
    requires FramesOk(c, m) && CacheOk(c, m) && Step(c, m, req, reply, m') && EndsUncached(m, req)
    ensures FramesOk(c, m') && CacheOk(c, m')
    ensures reply != Stuck && WholeOnMiss(c, m, req) ==> Means(c, m, req, reply, m')
  {
    hide FramesOk, CacheOk, WriteStep, ReadStep, AssignStep, FinalizeStep, Owned, PageNow, InMemory, FindEntry, Splice, Occupied;
    match req {
      case Finalize(pid) => FinalizeServes(c, m, pid, reply, m');
      case Assign(pid, pages) =>
        AssignGrants(c, m, pid, pages, reply, m');
        AssignEntries(c, m, pid, pages, reply, m');
        CacheStays(c, m, m');
      case Write(pid, page, offset, buffer) =>
        var r :| WriteStep(c, m, pid, page, offset, buffer, r, reply, m');
        if FindEntry(m.entries, pid, page, 0) != MISS {
          WriteHit(c, m, pid, page, offset, buffer, r, reply, m');
        } else if r != MISS {
          WriteMiss(c, m, pid, page, offset, buffer, r, reply, m');
        } else {
          StuckWrite(c, m, pid, page, offset, buffer, r, reply, m');
          ChargeChangesNothing(c, m, pid);
        }
      case Read(pid, page, offset, size) =>
        var r :| ReadStep(c, m, pid, page, offset, size, r, reply, m');
        if FindEntry(m.entries, pid, page, 0) != MISS {
          ReadHit(c, m, pid, page, offset, size, r, reply, m');
        } else if r != MISS {
          ReadMiss(c, m, pid, page, offset, size, r, reply, m');
        } else {
          StuckRead(c, m, pid, page, offset, size, r, reply, m');
          ChargeChangesNothing(c, m, pid);
        }
    }
  }

  // ---------- whole runs ----------

  ghost predicate IsRun(c: Config, ms: seq<Memory>, reqs: seq<Request>, replies: seq<Reply>) {
    && |ms| == |reqs| + 1 && |replies| == |reqs|
    && forall i :: 0 <= i < |reqs| ==> Step(c, ms[i], reqs[i], replies[i], ms[i + 1])
  }

  /** A limit that fits the counter is kept by every request. */
  lemma StepKeepsQuotas(c: Config, m: Memory, req: Request, reply: Reply, m': Memory)
    requires Step(c, m, req, reply, m') && QuotaSafe(m.quotas, m.entries, Limit(c.most)) && c.most <= 0x7fff
    ensures QuotaSafe(m'.quotas, m'.entries, Limit(c.most))
  {
    hide QuotaSafe, CountersOk, Step, Countable;
    SafeCounters(m.quotas, m.entries, Limit(c.most));
    SmallLimit(m.quotas, req.pid, c.most);
    StepKeepsQuotasIff(c, m, req, reply, m');
  }

  /** In every run the quotas are kept, if the limit fits the counter. */
  lemma {:induction false} RunsKeepQuotas(c: Config, ms: seq<Memory>, reqs: seq<Request>, replies: seq<Reply>, i: nat)
    requires IsRun(c, ms, reqs, replies) && i < |ms| && QuotaSafe(ms[0].quotas, ms[0].entries, Limit(c.most)) && c.most <= 0x7fff
    ensures QuotaSafe(ms[i].quotas, ms[i].entries, Limit(c.most))
  {
    hide Step, QuotaSafe;
    if i > 0 {
      RunsKeepQuotas(c, ms, reqs, replies, i - 1);
      assert Step(c, ms[i - 1], reqs[i - 1], replies[i - 1], ms[i - 1 + 1]);
      StepKeepsQuotas(c, ms[i - 1], reqs[i - 1], replies[i - 1], ms[i]);
    }
  }

  /** What a flat store would hold in a page after the requests. */
  function Flat(reqs: seq<Request>, p: int, g: int, before: seq<byte>): seq<byte> {
    if reqs == [] then before
    else After(reqs[|reqs| - 1], p, g, Flat(reqs[..|reqs| - 1], p, g, before))
  }

  predicate Lives(reqs: seq<Request>, p: int) {
    forall k :: 0 <= k < |reqs| ==> Survives(reqs[k], p)
  }

  /** A run in which no process ends with a page in the cache, every miss finds an entry and a missed write
      covers its page. */
  ghost predicate Orderly(c: Config, ms: seq<Memory>, reqs: seq<Request>, replies: seq<Reply>) {
    && IsRun(c, ms, reqs, replies)
    && forall i :: 0 <= i < |reqs| ==> EndsUncached(ms[i], reqs[i]) && replies[i] != Stuck && WholeOnMiss(c, ms[i], reqs[i])
  }

  lemma OrderlyStep(c: Config, ms: seq<Memory>, reqs: seq<Request>, replies: seq<Reply>, n: nat)
    requires Orderly(c, ms, reqs, replies) && n < |reqs| && FramesOk(c, ms[n]) && CacheOk(c, ms[n])
    ensures FramesOk(c, ms[n + 1]) && CacheOk(c, ms[n + 1]) && Means(c, ms[n], reqs[n], replies[n], ms[n + 1])
  {
    hide Step, FramesOk, CacheOk, Means, WholeOnMiss, EndsUncached;
    assert Step(c, ms[n], reqs[n], replies[n], ms[n + 1]) && WholeOnMiss(c, ms[n], reqs[n]);
    StepServes(c, ms[n], reqs[n], replies[n], ms[n + 1]);
  }

  lemma {:induction false} RunsStayInOrder(c: Config, ms: seq<Memory>, reqs: seq<Request>, replies: seq<Reply>, i: nat)
    requires Orderly(c, ms, reqs, replies) && i < |ms| && FramesOk(c, ms[0]) && CacheOk(c, ms[0])
    ensures FramesOk(c, ms[i]) && CacheOk(c, ms[i])
  {
    hide Step, FramesOk, CacheOk, Orderly, Means;
    if i > 0 {
      RunsStayInOrder(c, ms, reqs, replies, i - 1);
      RunLength(c, ms, reqs, replies);
      OrderlyStep(c, ms, reqs, replies, i - 1);
    }
  }

  lemma RunLength(c: Config, ms: seq<Memory>, reqs: seq<Request>, replies: seq<Reply>)
    requires Orderly(c, ms, reqs, replies)
    ensures |ms| == |reqs| + 1 && |replies| == |reqs|
  {
  }

  lemma {:induction false} PageReadsLikeFlat(c: Config, ms: seq<Memory>, reqs: seq<Request>, replies: seq<Reply>, i: nat, j: nat, p: int, g: int)
    requires Orderly(c, ms, reqs, replies) && i <= j <= |reqs| < |ms| && FramesOk(c, ms[0]) && CacheOk(c, ms[0])
    requires Owned(c, ms[i], p, g) && Lives(reqs[i..j], p)
    ensures Owned(c, ms[j], p, g) && PageNow(c, ms[j], p, g) == Flat(reqs[i..j], p, g, PageNow(c, ms[i], p, g))
    decreases j
  {
    hide Step, FramesOk, CacheOk, Owned, PageNow, After, Orderly, Survives;
    if i < j {
      var n := j - 1;
      assert reqs[i..j][..n - i] == reqs[i..n] && reqs[i..j][n - i] == reqs[n];
      assert Lives(reqs[i..n], p) && Survives(reqs[n], p) by { LivesShorter(reqs[i..j], p); }
      PageReadsLikeFlat(c, ms, reqs, replies, i, n, p, g);
      RunsStayInOrder(c, ms, reqs, replies, n);
      OrderlyStep(c, ms, reqs, replies, n);
    } else {
      assert reqs[i..j] == [];
    }
  }

  lemma LivesShorter(reqs: seq<Request>, p: int)
    requires Lives(reqs, p) && reqs != []
    ensures Lives(reqs[..|reqs| - 1], p) && Survives(reqs[|reqs| - 1], p)
  {
  }

  /** Whatever was evicted and written back on the way, a page reads as a flat store would have it, from
      wherever in the run it is in use until its process ends. */
  lemma RunsReadLikeFlat(c: Config, ms: seq<Memory>, reqs: seq<Request>, replies: seq<Reply>, i: nat, j: nat)
    requires Orderly(c, ms, reqs, replies) && i <= j <= |reqs| < |ms| && FramesOk(c, ms[0]) && CacheOk(c, ms[0])
    ensures FramesOk(c, ms[j]) && CacheOk(c, ms[j])
    ensures forall p, g :: Owned(c, ms[i], p, g) && Lives(reqs[i..j], p) ==>
      Owned(c, ms[j], p, g) && PageNow(c, ms[j], p, g) == Flat(reqs[i..j], p, g, PageNow(c, ms[i], p, g))
  {
    hide Step, FramesOk, CacheOk, Owned, PageNow, Flat, Orderly, Lives;
    RunsStayInOrder(c, ms, reqs, replies, j);
    forall p, g | Owned(c, ms[i], p, g) && Lives(reqs[i..j], p)
      ensures Owned(c, ms[j], p, g) && PageNow(c, ms[j], p, g) == Flat(reqs[i..j], p, g, PageNow(c, ms[i], p, g)) {
      PageReadsLikeFlat(c, ms, reqs, replies, i, j, p, g);
    }
  }

  /** Every read of such a run answers with the bytes last written since its page came into use. */
  lemma ReadsAnswerLikeFlat(c: Config, ms: seq<Memory>, reqs: seq<Request>, replies: seq<Reply>, i: nat, j: nat)
    requires Orderly(c, ms, reqs, replies) && i <= j < |reqs| == |replies| < |ms| && FramesOk(c, ms[0]) && CacheOk(c, ms[0])
    requires reqs[j].Read? && Owned(c, ms[i], reqs[j].pid, reqs[j].page) && Lives(reqs[i..j], reqs[j].pid)
    ensures var page := Flat(reqs[i..j], reqs[j].pid, reqs[j].page, PageNow(c, ms[i], reqs[j].pid, reqs[j].page));
      reqs[j].offset + reqs[j].size <= |page| && replies[j] == Bytes(page[reqs[j].offset..reqs[j].offset + reqs[j].size])
  {
    hide Step, FramesOk, CacheOk, Owned, PageNow, Flat, Orderly, Lives;
    PageReadsLikeFlat(c, ms, reqs, replies, i, j, reqs[j].pid, reqs[j].page);
    RunsStayInOrder(c, ms, reqs, replies, j);
    OrderlyStep(c, ms, reqs, replies, j);
  }

  // ---------- runs with room for every quota ----------

  function Pids(qs: seq<Quota>): (r: set<int>)
    ensures forall p :: p in r <==> Known(qs, p)
  {
    if qs == [] then {} else
      KnownCons(qs[0], qs[1..], 0);
      assert qs == [qs[0]] + qs[1..];
      assert forall p :: Known(qs, p) <==> qs[0].pid == p || Known(qs[1..], p) by {
        forall p ensures Known(qs, p) <==> qs[0].pid == p || Known(qs[1..], p) { KnownCons(qs[0], qs[1..], p); }
      }
      {qs[0].pid} + Pids(qs[1..])
  }

  lemma {:induction false} PidsCount(qs: seq<Quota>, limit: nat)
    requires CountersOk(qs, limit)
    ensures |Pids(qs)| == |qs|
  {
    if qs != [] { PidsCount(qs[1..], limit); }
  }

  /** A list that only names processes of `all` is no longer than that. */
  lemma ListBelow(qs: seq<Quota>, limit: nat, all: set<int>)
    requires CountersOk(qs, limit) && forall p :: Known(qs, p) ==> p in all
    ensures |qs| <= |all|
  {
    PidsCount(qs, limit);
    forall p | p in Pids(qs) ensures p in all { assert Known(qs, p); }
    assert Pids(qs) + (all - Pids(qs)) == all;
  }

  /** Nobody else's entry changes, and what a process loses of its own is what it used least recently. */
  ghost predicate OwnOnly(m: Memory, pid: int, m': Memory) {
    && |m'.entries| == |m.entries|
    && forall k :: 0 <= k < |m.entries| && m.entries[k].pid >= 0 && m'.entries[k] != m.entries[k] ==>
         m.entries[k].pid == pid && m'.entries[k].pid == pid &&
         (m'.entries[k].page == m.entries[k].page ||
          forall i :: 0 <= i < |m.entries| && m.entries[i].pid == pid ==> m.entries[k].lastUsed <= m.entries[i].lastUsed)
  }

  lemma EntryStepRoomy(c: Config, m: Memory, pid: int, page: int, r: int, reply: Reply, m': Memory)
    requires EntryStep(c, m, pid, page, r, reply, m') && QuotaSafe(m.quotas, m.entries, Limit(c.most)) && Snug(m.quotas, m.entries)
    requires pid > 0 && |Charged(m.quotas, pid, c.most)| * Limit(c.most) <= |m.entries| && c.most <= 0x7fff
    ensures Snug(m'.quotas, m'.entries) && reply != Stuck && OwnOnly(m, pid, m')
  {
    hide QuotaSafe, Snug, Charged, IsVictim;
    var i := FindEntry(m.entries, pid, page, 0);
    if i != MISS {
      assert Holds(m.entries, i, pid, page);
      SameOccupant(m.quotas, m.entries, Limit(c.most), i, m'.entries[i]);
    } else {
      var e := if r == MISS then Entry(pid, page, [], false, 0) else m'.entries[r];
      NobodyElseEvicted(m.quotas, m.entries, c.most, pid, r, e);
      forall k | 0 <= k < |m.entries| && m.entries[k].pid == pid ensures InPool(m.entries, true, pid, k) {}
    }
  }

  lemma StepRoomy(c: Config, m: Memory, req: Request, reply: Reply, m': Memory)
    requires Step(c, m, req, reply, m') && QuotaSafe(m.quotas, m.entries, Limit(c.most)) && Snug(m.quotas, m.entries)
    requires |Charged(m.quotas, req.pid, c.most)| * Limit(c.most) <= |m.entries| && c.most <= 0x7fff
    ensures Snug(m'.quotas, m'.entries) && reply != Stuck && OwnOnly(m, req.pid, m')
  {
    hide QuotaSafe, Snug, Charged, EntryStep, WriteStep, ReadStep, AssignStep, FinalizeStep, OwnOnly;
    match req {
      case Assign(pid, pages) =>
        AssignEntries(c, m, pid, pages, reply, m');
        NothingChanges(m, pid, m');
      case Finalize(pid) =>
        FinalizeEntries(c, m, pid, reply, m');
        NothingChanges(m, pid, m');
      case Write(pid, page, offset, buffer) =>
        var r :| WriteStep(c, m, pid, page, offset, buffer, r, reply, m');
        WriteEntry(c, m, pid, page, offset, buffer, r, reply, m');
        EntryStepRoomy(c, m, pid, page, r, reply, m');
      case Read(pid, page, offset, size) =>
        var r :| ReadStep(c, m, pid, page, offset, size, r, reply, m');
        ReadEntry(c, m, pid, page, offset, size, r, reply, m');
        EntryStepRoomy(c, m, pid, page, r, reply, m');
    }
  }

  lemma NothingChanges(m: Memory, pid: int, m': Memory)
    requires m'.entries == m.entries
    ensures OwnOnly(m, pid, m')
  {
  }

  lemma StepProcesses(c: Config, m: Memory, req: Request, reply: Reply, m': Memory, p: int)
    requires Step(c, m, req, reply, m')
    ensures Known(m'.quotas, p) ==> Known(m.quotas, p) || p == req.pid
    ensures |m'.entries| == |m.entries|
  {
    hide Known, Charged, EntryStep, WriteStep, ReadStep, AssignStep, FinalizeStep;
    match req {
      case Assign(pid, pages) => AssignEntries(c, m, pid, pages, reply, m');
      case Finalize(pid) => FinalizeEntries(c, m, pid, reply, m');
      case Write(pid, page, offset, buffer) =>
        var r :| WriteStep(c, m, pid, page, offset, buffer, r, reply, m');
        WriteEntry(c, m, pid, page, offset, buffer, r, reply, m');
        EntryStepProcesses(c, m, pid, page, r, reply, m', p);
      case Read(pid, page, offset, size) =>
        var r :| ReadStep(c, m, pid, page, offset, size, r, reply, m');
        ReadEntry(c, m, pid, page, offset, size, r, reply, m');
        EntryStepProcesses(c, m, pid, page, r, reply, m', p);
    }
  }

  lemma EntryStepProcesses(c: Config, m: Memory, pid: int, page: int, r: int, reply: Reply, m': Memory, p: int)
    requires EntryStep(c, m, pid, page, r, reply, m')
    ensures (Known(m'.quotas, p) ==> Known(m.quotas, p) || p == pid) && |m'.entries| == |m.entries|
  {
    hide Known, Charged, IsVictim, Exceeded;
    ChargedKnown(m.quotas, pid, c.most, p);
  }

  /** The processes of `all` fit: the one charged next included. */
  lemma FewEnough(qs: seq<Quota>, most: nat, pid: int, all: set<int>, room: nat)
    requires CountersOk(qs, Limit(most)) && most <= 0x7fff && pid in all && (forall p :: Known(qs, p) ==> p in all) && |all| * Limit(most) <= room
    ensures |Charged(qs, pid, most)| * Limit(most) <= room
  {
    hide Charged, CountersOk, Known, Limit, Countable;
    SmallLimit(qs, pid, most);
    ChargedOk(qs, pid, most);
    forall p | Known(Charged(qs, pid, most), p) ensures p in all { ChargedKnown(qs, pid, most, p); }
    ListBelow(Charged(qs, pid, most), Limit(most), all);
    MulMono(|Charged(qs, pid, most)|, |all|, Limit(most));
  }

  /** With an entry for every unit of every process's quota, and quotas that fit the counter, whatever the run: every miss finds an entry,
      counters equal real occupancy, no process loses a page to another, and what it loses to itself is
      what it used least recently. */
  lemma {:induction false} RoomyRuns(c: Config, ms: seq<Memory>, reqs: seq<Request>, replies: seq<Reply>, all: set<int>, i: nat)
    requires IsRun(c, ms, reqs, replies) && i < |ms| && c.most <= 0x7fff
    requires ms[0].quotas == [] && forall k :: 0 <= k < |ms[0].entries| ==> ms[0].entries[k].pid < 0
    requires (forall j :: 0 <= j < |reqs| ==> reqs[j].pid in all) && |all| * Limit(c.most) <= |ms[0].entries|
    ensures |ms[i].entries| == |ms[0].entries| && Snug(ms[i].quotas, ms[i].entries)
    ensures QuotaSafe(ms[i].quotas, ms[i].entries, Limit(c.most)) && forall p :: Known(ms[i].quotas, p) ==> p in all
    ensures i < |reqs| ==> replies[i] != Stuck && OwnOnly(ms[i], reqs[i].pid, ms[i + 1])
  {
    hide Step, QuotaSafe, Snug, Known, OwnOnly, CountersOk, Charged;
    if i == 0 {
      FreshIsSnug(ms[0], c.most);
    } else {
      var n := i - 1;
      RoomyRuns(c, ms, reqs, replies, all, n);
      assert Step(c, ms[n], reqs[n], replies[n], ms[n + 1]);
      SafeCounters(ms[n].quotas, ms[n].entries, Limit(c.most));
      FewEnough(ms[n].quotas, c.most, reqs[n].pid, all, |ms[0].entries|);
      StepRoomy(c, ms[n], reqs[n], replies[n], ms[i]);
      StepKeepsQuotas(c, ms[n], reqs[n], replies[n], ms[i]);
      StepProcesses(c, ms[n], reqs[n], replies[n], ms[i], 0);
      forall p | Known(ms[i].quotas, p) ensures p in all {
        StepProcesses(c, ms[n], reqs[n], replies[n], ms[i], p);
      }
    }
    if i < |reqs| {
      SafeCounters(ms[i].quotas, ms[i].entries, Limit(c.most));
      FewEnough(ms[i].quotas, c.most, reqs[i].pid, all, |ms[0].entries|);
      StepRoomy(c, ms[i], reqs[i], replies[i], ms[i + 1]);
    }
  }

  lemma SafeCounters(qs: seq<Quota>, es: seq<Entry>, limit: nat)
    requires QuotaSafe(qs, es, limit)
    ensures CountersOk(qs, limit)
  {
  }

  lemma FreshIsSnug(m: Memory, most: nat)
    requires m.quotas == [] && forall k :: 0 <= k < |m.entries| ==> m.entries[k].pid < 0
    ensures Snug(m.quotas, m.entries) && QuotaSafe(m.quotas, m.entries, Limit(most)) && forall p :: !Known(m.quotas, p)
  {
    forall p | p >= 0 ensures Occupied(m.entries, p) == 0 {
      OccupiedWitness(m.entries, p);
    }
  }

  // ---------- the allocator over whole runs ----------

  /** Whatever pages are granted and processes ended, the free list holds exactly the frames of nobody, and
      pages and frames match one to one. */
  lemma {:induction false} RunsKeepFrames(c: Config, ms: seq<Memory>, reqs: seq<Request>, replies: seq<Reply>, i: nat)
    requires IsRun(c, ms, reqs, replies) && i < |ms| && FramesOk(c, ms[0])
    requires forall j :: 0 <= j < |reqs| ==> reqs[j].Assign? || reqs[j].Finalize?
    ensures FramesOk(c, ms[i])
    ensures forall pid, page: nat :: pid > 0 ==> (Owned(c, ms[i], pid, page) <==> page < PagesOf(ms[i].counts, pid))
  {
    hide FramesOk, AssignStep, FinalizeStep, Owned;
    if i > 0 {
      var n := i - 1;
      RunsKeepFrames(c, ms, reqs, replies, n);
      assert Step(c, ms[n], reqs[n], replies[n], ms[n + 1]);
      match reqs[n] {
        case Assign(pid, pages) => AssignGrants(c, ms[n], pid, pages, replies[n], ms[i]);
        case Finalize(pid) => FinalizeFrees(c, ms[n], pid, replies[n], ms[i]);
      }
    }
    forall pid, page: nat | pid > 0 ensures Owned(c, ms[i], pid, page) <==> page < PagesOf(ms[i].counts, pid) {
      OwnedIffGranted(c, ms[i], pid, page);
    }
  }
}
