/** What a write to a page that is not cached does to it. */
module MissedWrites {
  import opened Words
  import opened Frames
  import opened Caches
  import opened PagedMemories
  import opened MemoryRuns

  lemma MissPlaces(c: Config, m: Memory, pid: int, page: int, offset: nat, buffer: seq<byte>, r: int, reply: Reply, m': Memory)
    requires FramesOk(c, m) && CacheOk(c, m) && WriteStep(c, m, pid, page, offset, buffer, r, reply, m')
    requires FindEntry(m.entries, pid, page, 0) == MISS && r != MISS
    ensures Owned(c, m, pid, page) && CanPlace(c, m, r, offset, |buffer|) && |PageNow(c, m, pid, page)| == c.size
  {
    PageSize(c, m, pid, page);
  }

  /** A missed write reads back as a flat store would have it exactly when the buffer, laid over what the
      entry happened to hold, gives what it gives laid over the page. */
  lemma MissedWriteIff(c: Config, m: Memory, pid: int, page: int, offset: nat, buffer: seq<byte>, r: int, reply: Reply, m': Memory)
    requires FramesOk(c, m) && CacheOk(c, m) && WriteStep(c, m, pid, page, offset, buffer, r, reply, m')
    requires FindEntry(m.entries, pid, page, 0) == MISS && r != MISS
    ensures Owned(c, m, pid, page) && CanPlace(c, m, r, offset, |buffer|) && |PageNow(c, m, pid, page)| == c.size
    ensures Means(c, m, Write(pid, page, offset, buffer), reply, m') <==>
      Splice(m.entries[r].content, offset, buffer) == Splice(PageNow(c, m, pid, page), offset, buffer)
  {
    hide FramesOk, CacheOk, PageNow, Owned, WriteStep, Splice;
    MissPlaces(c, m, pid, page, offset, buffer, r, reply, m');
    forall p, g | Owned(c, m, p, g)
      ensures Owned(c, m', p, g)
      ensures PageNow(c, m', p, g) == if p == pid && g == page then Splice(m.entries[r].content, offset, buffer) else PageNow(c, m, p, g) {
      MissReads(c, m, pid, page, offset, buffer, r, reply, m', p, g);
    }
  }

  // ---------- what a caller can check ----------

  /** The same memory, but for the bytes entry `r` happens to hold; if they are those of a clean page, that
      page holds them in its frame as well. */
  function Restaled(c: Config, m: Memory, r: nat, stale: seq<byte>): (n: Memory)
    requires CanPlace(c, m, r, 0, 0) && (m.entries[r].pid >= 0 ==> Owned(c, m, m.entries[r].pid, m.entries[r].page)) && |stale| == c.size
    ensures n.entries == m.entries[r := m.entries[r].(content := stale)]
    ensures n.free == m.free && n.counts == m.counts && n.quotas == m.quotas && n.clock == m.clock
  {
    var e := m.entries[r];
    var n := m.(entries := m.entries[r := e.(content := stale)]);
    if e.pid >= 0 && !e.written then n.(bytes := Stored(m.bytes, FrameOf(c, m, e.pid, e.page), stale)) else n
  }

  lemma FindRestaled(m: Memory, r: nat, e: Entry, p: int, g: int)
    requires r < |m.entries| && e.pid == m.entries[r].pid && e.page == m.entries[r].page
    ensures FindEntry(m.entries[r := e], p, g, 0) == FindEntry(m.entries, p, g, 0)
  {
    var es' := m.entries[r := e];
    if FindEntry(m.entries, p, g, 0) == r {
      FindNew(m.entries, r, e);
    } else if e.pid == p && e.page == g {
      assert Holds(m.entries, r, p, g);
      var i := FindEntry(es', p, g, 0);
      assert Holds(m.entries, FindEntry(m.entries, p, g, 0), p, g);
      assert Holds(es', FindEntry(m.entries, p, g, 0), p, g);
      assert Holds(m.entries, i, p, g);
    } else {
      FindOther(m.entries, r, e, p, g);
    }
  }

  lemma EntryHere(c: Config, m: Memory, r: nat)
    requires CacheOk(c, m) && r < |m.entries|
    ensures CanPlace(c, m, r, 0, 0) && (m.entries[r].pid >= 0 ==> Owned(c, m, m.entries[r].pid, m.entries[r].page))
    ensures m.entries[r].pid < 0 ==> !m.entries[r].written
  {
    assert EntryOk(c, m, r);
  }

  /** A free entry may hold any bytes, and so may one whose page differs from its frame. */
  lemma DirtiedOk(c: Config, m: Memory, r: nat, stale: seq<byte>)
    requires FramesOk(c, m) && CacheOk(c, m) && r < |m.entries| && |stale| == c.size
    ensures var e := m.entries[r];
      var d := m.(entries := m.entries[r := e.(content := stale, written := e.pid >= 0)]);
      FramesOk(c, d) && CacheOk(c, d)
  {
    hide FindFrame, FindEntry, Allocated, TableOf, Page, InBounds;
    var e := m.entries[r].(content := stale, written := m.entries[r].pid >= 0);
    var d := m.(entries := m.entries[r := e]);
    assert EntryOk(c, m, r);
    forall i | 0 <= i < |d.entries| ensures EntryOk(c, d, i) {
      assert EntryOk(c, m, i);
      FindRestaled(m, r, e, m.entries[i].pid, m.entries[i].page);
    }
  }

  /** Whatever bytes entry `r` holds, the memory is in order, and a page that is not cached reads the same. */
  lemma RestaledOk(c: Config, m: Memory, r: nat, stale: seq<byte>, pid: int, page: int)
    requires FramesOk(c, m) && CacheOk(c, m) && r < |m.entries| && |stale| == c.size
    requires Owned(c, m, pid, page) && FindEntry(m.entries, pid, page, 0) == MISS
    ensures CanPlace(c, m, r, 0, 0) && (m.entries[r].pid >= 0 ==> Owned(c, m, m.entries[r].pid, m.entries[r].page))
    ensures var n := Restaled(c, m, r, stale);
      FramesOk(c, n) && CacheOk(c, n) && Owned(c, n, pid, page) && FindEntry(n.entries, pid, page, 0) == MISS
      && PageNow(c, n, pid, page) == PageNow(c, m, pid, page)
  {
    hide FindFrame, FindEntry, Allocated, TableOf, Page, InBounds, Stored, FramesOk, CacheOk, Owned, InMemory;
    EntryHere(c, m, r);
    var e := m.entries[r];
    var dirty := e.(content := stale, written := e.pid >= 0);
    var d, n := m.(entries := m.entries[r := dirty]), Restaled(c, m, r, stale);
    DirtiedOk(c, m, r, stale);
    FindRestaled(m, r, dirty, pid, page);
    FindRestaled(m, r, e.(content := stale), pid, page);
    DirtiedSame(c, m, d);
    if e.pid >= 0 && !e.written {
      NotThere(m, r, pid, page);
      EvictedKeeps(c, d, r, pid, page);
      var u := Evicted(c, d, r, pid, page);
      assert n == u.(entries := u.entries[r := e.(content := stale)]);
      CleanedOk(c, d, u, r, e.(content := stale), n);
      CleanedSame(c, u, n);
    } else {
      assert n == d;
    }
  }

  lemma NotThere(m: Memory, r: nat, pid: int, page: int)
    requires r < |m.entries| && FindEntry(m.entries, pid, page, 0) == MISS
    ensures !Holds(m.entries, r, pid, page) && !(m.entries[r].pid == pid && m.entries[r].page == page)
  {
  }

  /** Frames do not depend on entries. */
  lemma DirtiedSame(c: Config, m: Memory, d: Memory)
    requires d.bytes == m.bytes
    ensures forall p, g :: Owned(c, m, p, g) <==> Owned(c, d, p, g)
    ensures forall p, g :: Owned(c, m, p, g) ==> InMemory(c, d, p, g) == InMemory(c, m, p, g) && FrameOf(c, d, p, g) == FrameOf(c, m, p, g)
  {
  }

  lemma CleanedSame(c: Config, u: Memory, n: Memory)
    requires n.bytes == u.bytes
    ensures forall p, g :: Owned(c, u, p, g) ==> Owned(c, n, p, g) && InMemory(c, n, p, g) == InMemory(c, u, p, g)
  {
  }

  /** Once the bytes were written back, the entry may count as clean. */
  lemma CleanedOk(c: Config, d: Memory, u: Memory, r: nat, clean: Entry, n: Memory)
    requires CacheOk(c, d) && FramesOk(c, u) && r < |d.entries| && u.entries == d.entries && u.clock == d.clock
    requires forall p, g :: Owned(c, d, p, g) <==> Owned(c, u, p, g)
    requires forall p, g :: Owned(c, d, p, g) && !Holds(d.entries, r, p, g) ==> InMemory(c, u, p, g) == InMemory(c, d, p, g)
    requires clean == d.entries[r].(written := false) && clean.pid >= 0
    requires Owned(c, d, clean.pid, clean.page) && InMemory(c, u, clean.pid, clean.page) == clean.content
    requires n == u.(entries := u.entries[r := clean])
    ensures FramesOk(c, n) && CacheOk(c, n)
  {
    hide FindFrame, FindEntry, Allocated, TableOf, Page, InBounds, InMemory, Owned;
    CleanedSame(c, u, n);
    forall i | 0 <= i < |n.entries| ensures EntryOk(c, n, i) {
      assert EntryOk(c, d, i);
      FindRestaled(d, r, clean, d.entries[i].pid, d.entries[i].page);
      if i != r && d.entries[i].pid >= 0 && Holds(d.entries, r, d.entries[i].pid, d.entries[i].page) {
        HeldOnce(c, d, r, d.entries[i].pid, d.entries[i].page);
        assert false;
      }
    }
  }

  lemma RestaledVictim(m: Memory, exceeded: bool, pid: int, r: nat, stale: seq<byte>)
    requires r < |m.entries| && IsVictim(m.entries, exceeded, pid, r)
    ensures IsVictim(m.entries[r := m.entries[r].(content := stale)], exceeded, pid, r)
  {
    var es, es' := m.entries, m.entries[r := m.entries[r].(content := stale)];
    assert forall i :: 0 <= i < |es| ==> es'[i].pid == es[i].pid && es'[i].lastUsed == es[i].lastUsed;
    assert AllTaken(es) <==> AllTaken(es');
    assert forall i :: InPool(es', exceeded, pid, i) <==> InPool(es, exceeded, pid, i);
  }

  /** The memory a missed write leaves when it is given entry `r`. */
  function AfterMiss(c: Config, m: Memory, pid: int, page: int, offset: nat, buffer: seq<byte>, r: nat): Memory
    requires CanPlace(c, m, r, offset, |buffer|) && CanPlace(c, ChargedFor(c, m, pid), r, 0, 0)
  {
    Placed(Evicted(c, ChargedFor(c, m, pid), r, pid, page), r, pid, page, offset, buffer, true)
  }

  /** Whatever entry `r` held, the write reads back right. */
  ghost predicate MeansWhatever(c: Config, m: Memory, pid: int, page: int, offset: nat, buffer: seq<byte>, r: nat)
    requires CacheOk(c, m) && r < |m.entries|
  {
    EntryHere(c, m, r);
    forall stale, m' :: |stale| == c.size && WriteStep(c, Restaled(c, m, r, stale), pid, page, offset, buffer, r, Success, m')
      ==> Means(c, Restaled(c, m, r, stale), Write(pid, page, offset, buffer), Success, m')
  }

  /** There is such a write for every content of the entry. */
  lemma RestaledStep(c: Config, m: Memory, pid: int, page: int, offset: nat, buffer: seq<byte>, r: nat, stale: seq<byte>) returns (m': Memory)
    requires FramesOk(c, m) && CacheOk(c, m) && Missing(c, m, pid, page, offset, buffer, r) && |stale| == c.size
    ensures CanPlace(c, m, r, 0, 0) && (m.entries[r].pid >= 0 ==> Owned(c, m, m.entries[r].pid, m.entries[r].page))
    ensures WriteStep(c, Restaled(c, m, r, stale), pid, page, offset, buffer, r, Success, m')
    ensures FindEntry(Restaled(c, m, r, stale).entries, pid, page, 0) == MISS
  {
    hide FramesOk, CacheOk, Charged, Exceeded, IsVictim, Evicted, Restaled, Owned;
    RestaledOk(c, m, r, stale, pid, page);
    var ms := Restaled(c, m, r, stale);
    RestaledVictim(m, Exceeded(m.quotas, pid, c.most), pid, r, stale);
    StepPlaces(c, ms, pid, offset, |buffer|, r);
    EvictedSame(c, ChargedFor(c, ms, pid), r, pid, page);
    m' := AfterMiss(c, ms, pid, page, offset, buffer, r);
  }

  lemma EvictedSame(c: Config, m: Memory, r: nat, pid: int, page: int)
    requires CanPlace(c, m, r, 0, 0)
    ensures Evicted(c, m, r, pid, page).entries == m.entries
  {
  }

  lemma StepPlaces(c: Config, m: Memory, pid: int, offset: nat, n: nat, r: nat)
    requires CacheOk(c, m) && r < |m.entries| && offset + n <= c.size
    ensures CanPlace(c, m, r, offset, n) && CanPlace(c, ChargedFor(c, m, pid), r, 0, 0)
  {
    assert EntryOk(c, m, r);
  }

  /** A write within a page that is not cached and would be given entry `r`. */
  ghost predicate Missing(c: Config, m: Memory, pid: int, page: int, offset: nat, buffer: seq<byte>, r: nat) {
    && Owned(c, m, pid, page) && offset + |buffer| <= c.size && FindEntry(m.entries, pid, page, 0) == MISS
    && r < |m.entries| && IsVictim(m.entries, Exceeded(m.quotas, pid, c.most), pid, r)
  }

  /** A missed write reads back right whatever its entry held exactly when it covers the whole page. */
  lemma WholePageIff(c: Config, m: Memory, pid: int, page: int, offset: nat, buffer: seq<byte>, r: nat)
    requires FramesOk(c, m) && CacheOk(c, m) && Missing(c, m, pid, page, offset, buffer, r)
    ensures MeansWhatever(c, m, pid, page, offset, buffer, r) <==> |buffer| == c.size
  {
    hide FramesOk, CacheOk, WriteStep, Means, PageNow, Owned, IsVictim, Splice, SameWhateverWasThere, Restaled;
    PageSize(c, m, pid, page);
    EntryHere(c, m, r);
    var before := PageNow(c, m, pid, page);
    StaleWriteIff(before, offset, buffer);
    if MeansWhatever(c, m, pid, page, offset, buffer, r) {
      forall stale: seq<byte> | |stale| == c.size ensures Splice(stale, offset, buffer) == Splice(before, offset, buffer) {
        var m' := RestaledStep(c, m, pid, page, offset, buffer, r, stale);
        RestaledIff(c, m, pid, page, offset, buffer, r, stale, m');
      }
      SameWhatever(before, offset, buffer);
    }
    if |buffer| == c.size {
      forall stale, m' | |stale| == c.size && WriteStep(c, Restaled(c, m, r, stale), pid, page, offset, buffer, r, Success, m')
        ensures Means(c, Restaled(c, m, r, stale), Write(pid, page, offset, buffer), Success, m') {
        RestaledIff(c, m, pid, page, offset, buffer, r, stale, m');
        SpliceCovers(stale, before, offset, buffer);
      }
    }
  }

  lemma RestaledIff(c: Config, m: Memory, pid: int, page: int, offset: nat, buffer: seq<byte>, r: nat, stale: seq<byte>, m': Memory)
    requires FramesOk(c, m) && CacheOk(c, m) && Missing(c, m, pid, page, offset, buffer, r) && |stale| == c.size
    requires CanPlace(c, m, r, 0, 0) && (m.entries[r].pid >= 0 ==> Owned(c, m, m.entries[r].pid, m.entries[r].page))
    requires WriteStep(c, Restaled(c, m, r, stale), pid, page, offset, buffer, r, Success, m')
    ensures |PageNow(c, m, pid, page)| == c.size
    ensures Means(c, Restaled(c, m, r, stale), Write(pid, page, offset, buffer), Success, m') <==>
      Splice(stale, offset, buffer) == Splice(PageNow(c, m, pid, page), offset, buffer)
  {
    hide FramesOk, CacheOk, WriteStep, Means, PageNow, Owned, IsVictim, Splice, Restaled;
    PageSize(c, m, pid, page);
    RestaledOk(c, m, r, stale, pid, page);
    MissedWriteIff(c, Restaled(c, m, r, stale), pid, page, offset, buffer, r, Success, m');
  }

  lemma SameWhatever(page: seq<byte>, offset: nat, buffer: seq<byte>)
    requires offset + |buffer| <= |page|
    requires forall stale: seq<byte> :: |stale| == |page| ==> Splice(stale, offset, buffer) == Splice(page, offset, buffer)
    ensures SameWhateverWasThere(page, offset, buffer)
  {
  }
}
