/** What a process sees that starts under the number of one that ended with pages in the cache. */
module OrphanedPages {
  import opened Caches
  import opened PagedMemories
  import opened MemoryRuns

  lemma RegrantedFrames(c: Config, m: Memory, pid: int, m1: Memory, pages: int, m2: Memory)
    requires FramesOk(c, m) && FinalizeStep(c, m, pid, Success, m1) && AssignStep(c, m1, pid, pages, Success, m2)
    ensures FramesOk(c, m2) && m2.entries == m.entries && forall g: nat :: g < Wanted(pages) ==> Owned(c, m2, pid, g)
  {
    hide FramesOk, FinalizeStep, AssignStep, Owned;
    FinalizeFrees(c, m, pid, Success, m1);
    FinalizeEntries(c, m, pid, Success, m1);
    AssignGrants(c, m1, pid, pages, Success, m2);
    AssignEntries(c, m1, pid, pages, Success, m2);
    forall g: nat | g < Wanted(pages) ensures Owned(c, m2, pid, g) { OwnedIffGranted(c, m2, pid, g); }
  }

  /** A page granted to a process whose number was in use before reads as its new frame exactly when no
      entry is left of the page of that number, or the one that is left has the same bytes; what is left
      is what the process before it saw. */
  lemma RegrantedIff(c: Config, m: Memory, pid: int, m1: Memory, pages: int, m2: Memory, g: nat)
    requires FramesOk(c, m) && CacheOk(c, m) && FinalizeStep(c, m, pid, Success, m1) && AssignStep(c, m1, pid, pages, Success, m2)
    requires g < Wanted(pages)
    ensures FramesOk(c, m2) && Owned(c, m2, pid, g)
    ensures var i := FindEntry(m.entries, pid, g, 0);
      && (PageNow(c, m2, pid, g) == InMemory(c, m2, pid, g) <==> i == MISS || m.entries[i].content == InMemory(c, m2, pid, g))
      && (i != MISS ==> Owned(c, m, pid, g) && PageNow(c, m2, pid, g) == PageNow(c, m, pid, g))
  {
    hide FramesOk, FinalizeStep, AssignStep, Owned, InMemory;
    RegrantedFrames(c, m, pid, m1, pages, m2);
    var i := FindEntry(m.entries, pid, g, 0);
    if i != MISS {
      FinalizeEntries(c, m, pid, Success, m1);
      assert EntryOk(c, m, i);
    }
  }

  /** The client of the new process is sent bytes of the old one. */
  lemma OldBytesAnswer(c: Config, m: Memory, pid: int, m1: Memory, pages: int, m2: Memory, g: nat, offset: nat, size: nat, reply: Reply, m3: Memory)
    requires FramesOk(c, m) && CacheOk(c, m) && FinalizeStep(c, m, pid, Success, m1) && AssignStep(c, m1, pid, pages, Success, m2)
    requires g < Wanted(pages) && FindEntry(m.entries, pid, g, 0) != MISS && Step(c, m2, Read(pid, g, offset, size), reply, m3)
    ensures Owned(c, m, pid, g) && offset + size <= |PageNow(c, m, pid, g)| && reply == Bytes(PageNow(c, m, pid, g)[offset..offset + size])
  {
    hide FramesOk, FinalizeStep, AssignStep, Owned, InMemory, CacheOk;
    RegrantedFrames(c, m, pid, m1, pages, m2);
    RegrantedIff(c, m, pid, m1, pages, m2, g);
    PageSize(c, m, pid, g);
  }
}
