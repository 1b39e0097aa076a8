/** The memory server's state as a value, and what each request does to it. */
module PagedMemories {
  import opened Words
  import opened Frames
  import opened Caches

  /** MARCOS, MARCO_SIZE and CACHE_X_PROC. */
  datatype Config = Config(frames: nat, size: nat, most: nat)

  datatype Memory = Memory(bytes: seq<byte>, free: seq<nat>, counts: seq<Count>,
                           entries: seq<Entry>, quotas: seq<Quota>, clock: nat)

  predicate Shaped(c: Config, m: Memory) {
    Shape(m.bytes, c.frames, c.size) && RECORD * c.frames <= |m.bytes|
  }

  function Table(c: Config, m: Memory): seq<Owner>
    requires Shaped(c, m)
  {
    TableOf(m.bytes, c.frames)
  }

  function Reserved(c: Config): nat
    requires c.size > 0
  {
    FirstFree(c.frames, c.size)
  }

  /** `get_frame`. */
  function FrameOf(c: Config, m: Memory, pid: int, page: int): (f: nat)
    requires Shaped(c, m)
    ensures f <= c.frames
  {
    FindFrame(Table(c, m), pid, page, 0)
  }

  /** A page some process was granted, and its frame behind the table. */
  predicate Owned(c: Config, m: Memory, pid: int, page: int) {
    Shaped(c, m) && pid > 0 && Reserved(c) <= FrameOf(c, m, pid, page) < c.frames && InBounds(m.bytes, FrameOf(c, m, pid, page), c.size)
  }

  function InMemory(c: Config, m: Memory, pid: int, page: int): seq<byte>
    requires Owned(c, m, pid, page)
  {
    Page(m.bytes, FrameOf(c, m, pid, page), c.size)
  }

  /** What the page reads as: its cache entry if it has one, its frame otherwise. */
  function PageNow(c: Config, m: Memory, pid: int, page: int): seq<byte>
    requires Owned(c, m, pid, page)
  {
    var i := FindEntry(m.entries, pid, page, 0);
    if i == MISS then InMemory(c, m, pid, page) else m.entries[i].content
  }

  // ---------- the invariant ----------

  ghost predicate EntryOk(c: Config, m: Memory, i: int)
    requires 0 <= i < |m.entries|
  {
    var e := m.entries[i];
    && |e.content| == c.size && e.lastUsed < m.clock
    && (e.pid < 0 ==> !e.written)
    && (e.pid >= 0 ==>
         && Owned(c, m, e.pid, e.page)
         && FindEntry(m.entries, e.pid, e.page, 0) == i
         && (!e.written ==> e.content == InMemory(c, m, e.pid, e.page)))
  }

  /** Cached pages belong to someone and are cached once; clean ones agree with their frames. */
  ghost predicate CacheOk(c: Config, m: Memory) {
    forall i :: 0 <= i < |m.entries| ==> EntryOk(c, m, i)
  }

  ghost predicate FramesOk(c: Config, m: Memory) {
    Shaped(c, m) && Allocated(Table(c, m), m.free, m.counts, Reserved(c))
  }

  ghost predicate Sound(c: Config, m: Memory) {
    FramesOk(c, m) && CacheOk(c, m) && QuotaSafe(m.quotas, m.entries, Limit(c.most))
  }

  /** The pages of a process are the ones it was granted. */
  lemma OwnedIffGranted(c: Config, m: Memory, pid: int, page: nat)
    requires FramesOk(c, m) && pid > 0
    ensures Owned(c, m, pid, page) <==> page < PagesOf(m.counts, pid)
  {
    OwnsExactly(Table(c, m), m.free, m.counts, Reserved(c), pid, page);
    var f := FrameOf(c, m, pid, page);
    if f < c.frames { MulLess(f, c.frames, c.size); }
  }

  // ---------- the steps of the cache ----------

  /** `update_cache`, first half: the entry's old page goes back to memory if it is dirty and another one. */
  function Evicted(c: Config, m: Memory, r: nat, pid: int, page: int): Memory
    requires r < |m.entries|
    requires m.entries[r].written ==> Owned(c, m, m.entries[r].pid, m.entries[r].page) && |m.entries[r].content| == c.size
  {
    var e := m.entries[r];
    if (e.pid != pid || e.page != page) && e.written
    then m.(bytes := Stored(m.bytes, FrameOf(c, m, e.pid, e.page), e.content))
    else m
  }

  /** Second half: the bytes are laid over whatever the entry holds. */
  function Placed(m: Memory, r: nat, pid: int, page: int, offset: nat, buffer: seq<byte>, written: bool): Memory
    requires r < |m.entries| && offset + |buffer| <= |m.entries[r].content|
  {
    m.(entries := m.entries[r := Entry(pid, page, Splice(m.entries[r].content, offset, buffer), written, m.clock)],
       clock := m.clock + 1)
  }

  /** A hit of `reading_cache`. */
  function Used(m: Memory, i: nat): Memory
    requires i < |m.entries|
  {
    m.(entries := m.entries[i := m.entries[i].(lastUsed := m.clock)], clock := m.clock + 1)
  }

  function ChargedFor(c: Config, m: Memory, pid: int): Memory {
    m.(quotas := Charged(m.quotas, pid, c.most))
  }

  predicate CanPlace(c: Config, m: Memory, r: int, offset: nat, n: nat) {
    && 0 <= r < |m.entries| && offset + n <= c.size && |m.entries[r].content| == c.size
    && (m.entries[r].written ==> Owned(c, m, m.entries[r].pid, m.entries[r].page))
  }

  // ---------- requests ----------

  datatype Request =
    | Assign(pid: int, pages: int)
    | Finalize(pid: int)
    | Write(pid: int, page: int, offset: nat, buffer: seq<byte>)
    | Read(pid: int, page: int, offset: nat, size: nat)

  /** `Stuck`: the miss found no entry to use, and the server goes on with entry -1. */
  datatype Reply = Success | NoSpace | Bytes(bytes: seq<byte>) | Stuck

  /** `pid` gets the first `n` free frames for pages `from` on. */
  function Granting(bytes: seq<byte>, frames: nat, free: seq<nat>, pid: int32, from: nat, n: nat): (r: seq<byte>)
    requires RECORD * frames <= |bytes| && n <= |free| && from + n <= 0xffff_ffff
    requires forall i :: 0 <= i < |free| ==> free[i] < frames
    ensures |r| == |bytes|
    decreases n
  {
    if n == 0 then bytes
    else Granting(WithOwner(bytes, free[0], Owner(pid, from)), frames, free[1..], pid, from + 1, n - 1)
  }

  /** Every record of `pid` from frame `from` on is set free. */
  function Freeing(bytes: seq<byte>, frames: nat, pid: int, from: nat): (r: seq<byte>)
    requires RECORD * frames <= |bytes| && from <= frames
    ensures |r| == |bytes|
    decreases frames - from
  {
    if from == frames then bytes
    else Freeing(if OwnerAt(bytes, from).pid == pid then WithOwner(bytes, from, FREE) else bytes, frames, pid, from + 1)
  }

  function Wanted(pages: int): nat {
    if pages < 0 then 0 else pages
  }

  predicate Grantable(c: Config, m: Memory, pid: int, pages: int) {
    && Shaped(c, m) && 0 < pid < 0x8000_0000 && pages <= |m.free|
    && PagesOf(m.counts, pid) + Wanted(pages) <= 0xffff_ffff
    && (forall i :: 0 <= i < |m.free| ==> m.free[i] < c.frames)
  }

  /** When the free frames suffice the grant is possible: no page count grows past the number of frames. */
  lemma AlwaysGrantable(c: Config, m: Memory, pid: int32, pages: int)
    requires FramesOk(c, m) && pid > 0 && pages <= |m.free|
    ensures Grantable(c, m, pid, pages)
  {
    hide FindFrame, PagesOf, PagesExact, OneEach, TableOf;
    NoMoreThanFrames(Table(c, m), m.free, m.counts, Reserved(c), pid);
    assert |Table(c, m)| == c.frames by { TableLength(c, m); }
    FewFrames(c.frames, c.size);
  }

  lemma TableLength(c: Config, m: Memory)
    requires Shaped(c, m)
    ensures |Table(c, m)| == c.frames
  {
  }

  lemma FewFrames(frames: nat, size: nat)
    requires size >= RECORD && frames * size < 0x1_0000_0000
    ensures frames <= 0xffff_ffff
  {
    if frames > 0xffff_ffff { MulMono(0x1_0000_0000, frames, size); }
  }

  ghost predicate AssignStep(c: Config, m: Memory, pid: int, pages: int, reply: Reply, m': Memory) {
    if |m.free| < pages then reply == NoSpace && m' == m
    else
      && reply == Success && Grantable(c, m, pid, pages)
      && m' == m.(bytes := Granting(m.bytes, c.frames, m.free, pid, PagesOf(m.counts, pid), Wanted(pages)),
                  free := m.free[Wanted(pages)..], counts := Granted(m.counts, pid, Wanted(pages)))
  }

  /** `finalize` purges the frames and the page count, and nothing of the cache. */
  ghost predicate FinalizeStep(c: Config, m: Memory, pid: int, reply: Reply, m': Memory) {
    && Shaped(c, m) && pid > 0 && reply == Success
    && m' == m.(bytes := Freeing(m.bytes, c.frames, pid, 0),
                free := m.free + FramesOf(Table(c, m), pid, 0), counts := Without(m.counts, pid))
  }

  ghost predicate WriteStep(c: Config, m: Memory, pid: int, page: int, offset: nat, buffer: seq<byte>, r: int, reply: Reply, m': Memory) {
    && Owned(c, m, pid, page)
    && var i := FindEntry(m.entries, pid, page, 0);
       if i != MISS then
         CanPlace(c, m, i, offset, |buffer|) && reply == Success && m' == Placed(m, i, pid, page, offset, buffer, true)
       else
         && IsVictim(m.entries, Exceeded(m.quotas, pid, c.most), pid, r)
         && (if r == MISS then reply == Stuck && m' == ChargedFor(c, m, pid)
             else CanPlace(c, m, r, offset, |buffer|) && reply == Success &&
                  m' == Placed(Evicted(c, ChargedFor(c, m, pid), r, pid, page), r, pid, page, offset, buffer, true))
  }

  ghost predicate ReadStep(c: Config, m: Memory, pid: int, page: int, offset: nat, size: nat, r: int, reply: Reply, m': Memory) {
    && Owned(c, m, pid, page) && offset + size <= c.size
    && var i := FindEntry(m.entries, pid, page, 0);
       if i != MISS then
         |m.entries[i].content| == c.size && reply == Bytes(m.entries[i].content[offset..offset + size]) && m' == Used(m, i)
       else
         && IsVictim(m.entries, Exceeded(m.quotas, pid, c.most), pid, r)
         && (if r == MISS then reply == Stuck && m' == ChargedFor(c, m, pid)
             else
               && CanPlace(c, m, r, 0, c.size)
               && var u := Evicted(c, ChargedFor(c, m, pid), r, pid, page);
                  InBounds(u.bytes, FrameOf(c, m, pid, page), c.size) &&
                  var found := Page(u.bytes, FrameOf(c, m, pid, page), c.size);
                  reply == Bytes(found[offset..offset + size]) && m' == Placed(u, r, pid, page, 0, found, false))
  }

  ghost predicate Step(c: Config, m: Memory, req: Request, reply: Reply, m': Memory) {
    match req
    case Assign(pid, pages) => AssignStep(c, m, pid, pages, reply, m')
    case Finalize(pid) => FinalizeStep(c, m, pid, reply, m')
    case Write(pid, page, offset, buffer) => exists r :: WriteStep(c, m, pid, page, offset, buffer, r, reply, m')
    case Read(pid, page, offset, size) => exists r :: ReadStep(c, m, pid, page, offset, size, r, reply, m')
  }

  // ---------- eviction ----------

  /** A write-back puts the dirty page where it belongs: no page reads differently, no page changes hands. */
  lemma EvictedKeeps(c: Config, m: Memory, r: nat, pid: int, page: int)
    requires FramesOk(c, m) && CacheOk(c, m) && r < |m.entries| && FindEntry(m.entries, pid, page, 0) == MISS
    ensures CanPlace(c, m, r, 0, 0)
    ensures var u := Evicted(c, m, r, pid, page);
      && FramesOk(c, u) && Table(c, u) == Table(c, m)
      && (forall p, g :: Owned(c, m, p, g) <==> Owned(c, u, p, g))
      && (forall p, g :: Owned(c, m, p, g) && !Holds(m.entries, r, p, g) ==> InMemory(c, u, p, g) == InMemory(c, m, p, g))
      && (m.entries[r].pid >= 0 ==>
           Owned(c, m, m.entries[r].pid, m.entries[r].page) &&
           InMemory(c, u, m.entries[r].pid, m.entries[r].page) == m.entries[r].content)
  {
    hide FindFrame, FindEntry, Allocated, TableOf, Page, Stored;
    assert EntryOk(c, m, r);
    var e := m.entries[r];
    assert Holds(m.entries, r, e.pid, e.page);
    if e.written {
      var f := FrameOf(c, m, e.pid, e.page);
      StoredOnlyThere(m.bytes, c.frames, f, e.content);
      var u := Evicted(c, m, r, pid, page);
      assert e.pid != pid || e.page != page;
      assert u.bytes == Stored(m.bytes, f, e.content) && TableOf(u.bytes, c.frames) == TableOf(m.bytes, c.frames);
      forall p, g | Owned(c, m, p, g) && !Holds(m.entries, r, p, g) ensures InMemory(c, u, p, g) == InMemory(c, m, p, g) {
      }
    }
  }

  // ---------- filling an entry ----------

  /** A new occupant of entry `r` leaves every other cached page where it is found. */
  lemma FindOther(es: seq<Entry>, r: nat, e: Entry, pid: int, page: int)
    requires r < |es| && !(e.pid == pid && e.page == page)
    ensures FindEntry(es, pid, page, 0) != r ==> FindEntry(es[r := e], pid, page, 0) == FindEntry(es, pid, page, 0)
    ensures FindEntry(es[r := e], pid, page, 0) == MISS || FindEntry(es[r := e], pid, page, 0) != r
  {
    var es' := es[r := e];
    var i, i' := FindEntry(es, pid, page, 0), FindEntry(es', pid, page, 0);
    if i' != MISS { assert Holds(es', i', pid, page) && Holds(es, i', pid, page); }
    if i != MISS && i != r { assert Holds(es, i, pid, page) && Holds(es', i, pid, page); }
  }

  lemma FindNew(es: seq<Entry>, r: nat, e: Entry)
    requires r < |es| && (FindEntry(es, e.pid, e.page, 0) == MISS || FindEntry(es, e.pid, e.page, 0) == r)
    ensures FindEntry(es[r := e], e.pid, e.page, 0) == r
  {
    var es' := es[r := e];
    assert Holds(es', r, e.pid, e.page);
    var i := FindEntry(es', e.pid, e.page, 0);
    if i != r { assert Holds(es', i, e.pid, e.page) && Holds(es, i, e.pid, e.page); }
  }

  /** The only entry that holds a page is the one that is found. */
  lemma HeldOnce(c: Config, m: Memory, r: nat, pid: int, page: int)
    requires CacheOk(c, m) && r < |m.entries| && pid >= 0 && Holds(m.entries, r, pid, page)
    ensures FindEntry(m.entries, pid, page, 0) == r
  {
    assert EntryOk(c, m, r);
  }

  ghost predicate Filled(c: Config, u: Memory, r: int, pid: int, page: int, content: seq<byte>, written: bool, m': Memory) {
    && 0 <= r < |u.entries| && Owned(c, u, pid, page)
    && |content| == c.size && (written || content == InMemory(c, u, pid, page))
    && m' == u.(entries := u.entries[r := Entry(pid, page, content, written, u.clock)], clock := u.clock + 1)
  }

  lemma FilledEntries(c: Config, m: Memory, u: Memory, r: nat, pid: int, page: int, content: seq<byte>, written: bool, m': Memory)
    requires FramesOk(c, m) && CacheOk(c, m) && r < |m.entries| && FindEntry(m.entries, pid, page, 0) == MISS
    requires CanPlace(c, m, r, 0, 0) && u == Evicted(c, m, r, pid, page) && Filled(c, u, r, pid, page, content, written, m')
    ensures FramesOk(c, m') && CacheOk(c, m')
  {
    hide FindFrame, FindEntry, Allocated, TableOf, Page, Stored, QuotaSafe, InBounds, InMemory;
    EvictedKeeps(c, m, r, pid, page);
    var e := Entry(pid, page, content, written, m.clock);
    FilledSame(c, u, r, pid, page, content, written, m');
    forall i | 0 <= i < |m'.entries| ensures EntryOk(c, m', i) {
      if i == r {
        FindNew(m.entries, r, e);
      } else {
        assert EntryOk(c, m, i);
        var o := m.entries[i];
        if o.pid >= 0 {
          if Holds(m.entries, r, o.pid, o.page) { HeldOnce(c, m, r, o.pid, o.page); }
          FindOther(m.entries, r, e, o.pid, o.page);
        }
      }
    }
  }

  lemma FilledSame(c: Config, u: Memory, r: nat, pid: int, page: int, content: seq<byte>, written: bool, m': Memory)
    requires FramesOk(c, u) && Filled(c, u, r, pid, page, content, written, m')
    ensures FramesOk(c, m') && forall p, g :: Owned(c, u, p, g) <==> Owned(c, m', p, g)
    ensures forall p, g :: Owned(c, u, p, g) ==> InMemory(c, m', p, g) == InMemory(c, u, p, g)
  {
  }

  /** The page placed reads as its new content; every other page, the victim's included, reads as before. */
  lemma FilledReads(c: Config, m: Memory, u: Memory, r: nat, pid: int, page: int, content: seq<byte>, written: bool, m': Memory, p: int, g: int)
    requires FramesOk(c, m) && CacheOk(c, m) && r < |m.entries| && FindEntry(m.entries, pid, page, 0) == MISS
    requires CanPlace(c, m, r, 0, 0) && u == Evicted(c, m, r, pid, page) && Filled(c, u, r, pid, page, content, written, m')
    requires Owned(c, m, p, g)
    ensures Owned(c, m', p, g) && PageNow(c, m', p, g) == if p == pid && g == page then content else PageNow(c, m, p, g)
  {
    hide FindFrame, FindEntry, Allocated, TableOf, Page, Stored, InBounds, InMemory;
    EvictedKeeps(c, m, r, pid, page);
    var e := Entry(pid, page, content, written, m.clock);
    FilledSame(c, u, r, pid, page, content, written, m');
    if p == pid && g == page {
      FindNew(m.entries, r, e);
    } else {
      FindOther(m.entries, r, e, p, g);
      if Holds(m.entries, r, p, g) {
        HeldOnce(c, m, r, p, g);
        GoneFromEntry(c, m, r, e, p, g);
      }
    }
  }

  lemma GoneFromEntry(c: Config, m: Memory, r: nat, e: Entry, p: int, g: int)
    requires CacheOk(c, m) && r < |m.entries| && p >= 0 && Holds(m.entries, r, p, g) && !(e.pid == p && e.page == g)
    ensures FindEntry(m.entries[r := e], p, g, 0) == MISS
  {
    var es' := m.entries[r := e];
    var i := FindEntry(es', p, g, 0);
    if i != MISS {
      assert Holds(es', i, p, g) && Holds(m.entries, i, p, g);
      HeldOnce(c, m, i, p, g);
      HeldOnce(c, m, r, p, g);
    }
  }

  /** A hit changes its own entry and nothing else. */
  lemma HitReads(c: Config, m: Memory, i: nat, e: Entry, m': Memory)
    requires FramesOk(c, m) && CacheOk(c, m) && i < |m.entries| && m.entries[i].pid >= 0
    requires e.pid == m.entries[i].pid && e.page == m.entries[i].page && |e.content| == c.size && e.lastUsed == m.clock
    requires e.written || (!m.entries[i].written && e.content == m.entries[i].content)
    requires m' == m.(entries := m.entries[i := e], clock := m.clock + 1)
    ensures FramesOk(c, m') && CacheOk(c, m')
    ensures forall p, g :: Owned(c, m, p, g) ==> Owned(c, m', p, g) && PageNow(c, m', p, g) == if p == e.pid && g == e.page then e.content else PageNow(c, m, p, g)
  {
    hide FindFrame, FindEntry, Allocated, TableOf, Page, InBounds;
    assert EntryOk(c, m, i);
    FindNew(m.entries, i, e);
    forall p, g ensures FindEntry(m'.entries, p, g, 0) == FindEntry(m.entries, p, g, 0) {
      if !(p == e.pid && g == e.page) { HitOthers(m.entries, i, e, p, g); }
    }
    forall j | 0 <= j < |m'.entries| ensures EntryOk(c, m', j) {
      assert EntryOk(c, m, j);
    }
  }

  lemma HitOthers(es: seq<Entry>, i: nat, e: Entry, p: int, g: int)
    requires i < |es| && e.pid == es[i].pid && e.page == es[i].page && !(p == e.pid && g == e.page)
    ensures FindEntry(es[i := e], p, g, 0) == FindEntry(es, p, g, 0)
  {
    FindOther(es, i, e, p, g);
  }
}
