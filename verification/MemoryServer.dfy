/** The memory server: one byte array that holds its own page table, scanned and changed in place, with
    the cache entries in front of it. */
module MemoryServers {
  import opened Words
  import opened Frames
  import opened Caches
  import opened PagedMemories
  import opened MemoryRuns

  class MemoryServer {
    const c: Config
    const memory: array<byte>
    const cache: array<Entry>
    var free: seq<nat>
    var counts: seq<Count>
    var quotas: seq<Quota>
    var clock: nat

    /** `load`; `junk` is what the fresh entry buffers hold. */
    constructor (frames: nat, size: nat, most: nat, entries: nat, junk: seq<byte>)
      requires size >= RECORD && frames * size < 0x1_0000_0000 && |junk| == size
      ensures c == Config(frames, size, most) && cache.Length == entries
      ensures Sound(c, Now()) && Loaded(Table(c, Now()), free, Reserved(c))
      ensures counts == [] && quotas == [] && forall i :: 0 <= i < entries ==> cache[i].pid < 0
    {
      c := Config(frames, size, most);
      memory := new byte[Address(frames, size)];
      cache := new Entry[entries](_ => Entry(-1, -1, junk, false, 0));
      free, counts, quotas, clock := [], [], [], 1;
      RoomExact(frames, size);
      new;
      TableBelow(frames, size);
      LoadTable();
      LoadedIsAllocated(Table(c, Now()), free, Reserved(c));
      FreshIsSnug(Now(), most);
    }

    /** The loop that writes the first records: the table's own frames belong to nobody, the rest are free. */
    method LoadTable()
      requires Shape(memory[..], c.frames, c.size) && free == []
      modifies this`free, memory
      ensures RECORD * c.frames <= memory.Length && Loaded(TableOf(memory[..], c.frames), free, Reserved(c))
    {
      hide OwnerAt, TableOf, WithOwner, Splice, Bytes4;
      TableBelow(c.frames, c.size);
      var first := FirstFree(c.frames, c.size);
      var f := 0;
      while f < c.frames
        invariant f <= c.frames && |free| == (if f < first then 0 else f - first)
        invariant forall i :: 0 <= i < |free| ==> free[i] == first + i
        invariant forall g :: 0 <= g < f ==> TableOf(memory[..], c.frames)[g] == if g < first then Owner(-1, g) else FREE
      {
        NumberSpares(memory[..], c.frames, f, f);
        PutWord(RECORD * f, f);
        var o := if f < first then Owner(-1, f) else FREE;
        OwnerChanged(memory[..], c.frames, f, o);
        PutOwner(f, o);
        if f >= first { free := free + [f]; }
        f := f + 1;
      }
    }

    ghost function Now(): Memory
      reads this, memory, cache
    {
      Memory(memory[..], free, counts, cache[..], quotas, clock)
    }

    // ---------- records ----------

    function WordAt(at: nat): (w: uint32)
      requires at + 4 <= memory.Length
      reads memory
      ensures w == Word(memory[..], at)
    {
      memory[at] as int + 0x100 * (memory[at + 1] as int) + 0x1_0000 * (memory[at + 2] as int) + 0x100_0000 * (memory[at + 3] as int)
    }

    method PutWord(at: nat, w: uint32)
      requires at + 4 <= memory.Length
      modifies memory
      ensures memory[..] == Splice(old(memory[..]), at, Bytes4(w))
    {
      var bytes := Bytes4(w);
      memory[at] := bytes[0];
      memory[at + 1] := bytes[1];
      memory[at + 2] := bytes[2];
      memory[at + 3] := bytes[3];
    }

    method PutOwner(f: nat, o: Owner)
      requires RECORD * f + RECORD <= memory.Length
      modifies memory
      ensures memory[..] == WithOwner(old(memory[..]), f, o)
    {
      hide Bytes4;
      ghost var before := memory[..];
      PutWord(RECORD * f + 4, Unsigned(o.pid));
      PutWord(RECORD * f + 8, o.page);
    }

    function OwnerIn(f: nat): (o: Owner)
      requires RECORD * f + RECORD <= memory.Length
      reads memory
      ensures o == OwnerAt(memory[..], f)
    {
      Owner(Signed(WordAt(RECORD * f + 4)), WordAt(RECORD * f + 8))
    }

    /** The first record that holds the page, or the number of frames. */
    method GetFrame(pid: int, page: int) returns (f: nat)
      requires RECORD * c.frames <= memory.Length
      ensures f == FindFrame(TableOf(memory[..], c.frames), pid, page, 0)
    {
      hide OwnerAt;
      ghost var t := TableOf(memory[..], c.frames);
      f := 0;
      while f < c.frames
        invariant f <= c.frames && FindFrame(t, pid, page, 0) == FindFrame(t, pid, page, f)
      {
        var o := OwnerIn(f);
        assert o == t[f];
        if o.pid == pid && o.page == page { break; }
        f := f + 1;
      }
    }

    // ---------- frames ----------

    /** Takes the frame at the head of the free list. */
    method GetAvailableFrame() returns (f: nat)
      requires free != []
      modifies this`free
      ensures f == old(free[0]) && free == old(free[1..])
    {
      f, free := free[0], free[1..];
    }

    method InicializePage(pid: int32, page: uint32)
      requires free != [] && RECORD * free[0] + RECORD <= memory.Length
      modifies this`free, memory
      ensures free == old(free[1..]) && memory[..] == WithOwner(old(memory[..]), old(free[0]), Owner(pid, page))
    {
      var f := GetAvailableFrame();
      PutOwner(f, Owner(pid, page));
    }

    /** The record of `pid` on the list of page counts, or the list's length. */
    method LocateCount(pid: int) returns (at: nat)
      ensures at <= |counts| && (at < |counts| ==> counts[at].pid == pid)
      ensures forall i :: 0 <= i < at ==> counts[i].pid != pid
    {
      at := 0;
      while at < |counts|
        invariant at <= |counts| && forall i :: 0 <= i < at ==> counts[i].pid != pid
      {
        if counts[at].pid == pid { break; }
        at := at + 1;
      }
    }

    /** The loop that gives a process its next pages, one free frame each. */
    method GrantPages(pid: int32, at: nat, required: int)
      requires at < |counts| && counts[at].pid == pid && required <= |free| && counts[at].pages + Wanted(required) <= 0xffff_ffff
      requires RECORD * c.frames <= memory.Length && forall i :: 0 <= i < |free| ==> free[i] < c.frames
      modifies this`free, this`counts, memory
      ensures memory[..] == Granting(old(memory[..]), c.frames, old(free), pid, old(counts[at].pages), Wanted(required))
      ensures free == old(free)[Wanted(required)..]
      ensures counts == old(counts)[at := Count(pid, old(counts[at].pages) + Wanted(required))]
    {
      hide Granting, WithOwner;
      ghost var all, bytes, first, n := free, memory[..], counts[at].pages, Wanted(required);
      var i := 0;
      while i < required
        invariant 0 <= i <= n && counts == old(counts)[at := Count(pid, first + i)] && free == all[i..]
        invariant Granting(bytes, c.frames, all, pid, first, n) == Granting(memory[..], c.frames, free, pid, first + i, n - i)
      {
        GrantingUnfolds(memory[..], c.frames, free, pid, first + i, n - i);
        counts := counts[at := Count(pid, counts[at].pages + 1)];
        InicializePage(pid, counts[at].pages - 1);
        i := i + 1;
      }
      GrantingUnfolds(memory[..], c.frames, free, pid, first + n, 0);
    }

    method AssignPages(pid: int32, required: int) returns (reply: Reply)
      requires FramesOk(c, Now()) && pid > 0
      modifies this`free, this`counts, memory
      ensures AssignStep(c, old(Now()), pid, required, reply, Now()) && FramesOk(c, Now())
    {
      hide Allocated, Granting, WithOwner, TableOf, FindFrame, Granted;
      ghost var m := Now();
      FreeInRange(c, m);
      if |free| < required { return NoSpace; }
      AlwaysGrantable(c, m, pid, required);
      var at := LocateCount(pid);
      GrantedAt(counts, pid, Wanted(required), at);
      if at == |counts| { counts := counts + [Count(pid, 0)]; }
      GrantPages(pid, at, required);
      AssignGrants(c, m, pid, required, Success, Now());
      return Success;
    }

    /** The loop that frees every record of a process. */
    method FreeFrames(pid: int)
      requires RECORD * c.frames <= memory.Length && pid != 0
      modifies this`free, memory
      ensures memory[..] == Freeing(old(memory[..]), c.frames, pid, 0)
      ensures free == old(free) + FramesOf(TableOf(old(memory[..]), c.frames), pid, 0)
    {
      hide FreedUpTo, Freeing, WithOwner, FramesOf, OwnerAt, TableOf;
      ghost var bytes, before := memory[..], free;
      FreedNone(bytes, before, c.frames, pid);
      var f := 0;
      while f < c.frames
        invariant f <= c.frames && FreedUpTo(bytes, before, memory[..], free, c.frames, pid, f)
      {
        FreedOne(bytes, before, memory[..], free, c.frames, pid, f);
        var o := OwnerIn(f);
        if o.pid == pid {
          PutOwner(f, FREE);
          free := free + [f];
        }
        f := f + 1;
      }
      FreedAll(bytes, before, memory[..], free, c.frames, pid);
    }

    /** Ends a process: its page count and its records go, its frames join the end of the free list. */
    method CleaningProcessEntries(pid: int) returns (reply: Reply)
      requires FramesOk(c, Now()) && pid > 0
      modifies this`free, this`counts, memory
      ensures FinalizeStep(c, old(Now()), pid, reply, Now()) && FramesOk(c, Now())
    {
      hide Allocated, Freeing, TableOf, FindFrame, FramesOf, Without;
      ghost var m := Now();
      var at := LocateCount(pid);
      WithoutAt(counts, pid, at);
      if at < |counts| { counts := counts[..at] + counts[at + 1..]; }
      FreeFrames(pid);
      FinalizeFrees(c, m, pid, Success, Now());
      return Success;
    }

    // ---------- the cache ----------

    method GetCacheEntry(pid: int, page: int) returns (r: int)
      ensures r == FindEntry(cache[..], pid, page, 0)
    {
      var i := 0;
      while i < cache.Length
        invariant i <= cache.Length && FindEntry(cache[..], pid, page, 0) == FindEntry(cache[..], pid, page, i)
      {
        if cache[i].pid == pid && cache[i].page == page { return i; }
        i := i + 1;
      }
      return MISS;
    }

    /** The first half of `assign_cache_entry`: charges the process, unless its quota is used up. */
    method Charge(pid: int) returns (exceeded: bool)
      modifies this`quotas
      ensures quotas == Charged(old(quotas), pid, c.most) && exceeded == Exceeded(old(quotas), pid, c.most)
    {
      var at := 0;
      while at < |quotas|
        invariant at <= |quotas| && forall i :: 0 <= i < at ==> quotas[i].pid != pid
      {
        if quotas[at].pid == pid { break; }
        at := at + 1;
      }
      ChargedAt(quotas, pid, c.most, at);
      exceeded := false;
      if at == |quotas| {
        quotas := quotas + [Quota(pid, 1)];
      } else if UsedUp(quotas[at].entries, c.most) {
        exceeded := true;
      } else {
        quotas := quotas[at := Quota(pid, Next16(quotas[at].entries))];
      }
    }

    method LeastRecentlyUsed(i: nat, lru: int, ghost own: bool, ghost pid: int) returns (r: int)
      requires i < cache.Length && Oldest(cache[..], own, pid, lru, i) && InPool(cache[..], own, pid, i)
      ensures Oldest(cache[..], own, pid, r, i + 1)
    {
      if lru < 0 { return i; }
      r := if cache[i].lastUsed < cache[lru].lastUsed then i else lru;
    }

    /** The second half: the entry to use, or MISS. */
    method ChooseEntry(pid: int, exceeded: bool) returns (r: int)
      ensures IsVictim(cache[..], exceeded, pid, r)
    {
      r := MISS;
      var i := 0;
      while i < cache.Length
        invariant i <= cache.Length && Oldest(cache[..], exceeded, pid, r, i)
        invariant !exceeded ==> forall j :: 0 <= j < i ==> cache[..][j].pid >= 0
      {
        if exceeded {
          if cache[i].pid == pid { r := LeastRecentlyUsed(i, r, exceeded, pid); }
        } else {
          if cache[i].pid < 0 { assert cache[..][i].pid < 0; return i; }
          r := LeastRecentlyUsed(i, r, exceeded, pid);
        }
        i := i + 1;
      }
    }

    /** Copies a page into its frame. */
    method WritingMemory(pid: int, page: int, content: seq<byte>)
      requires Owned(c, Now(), pid, page) && |content| == c.size
      modifies memory
      ensures memory[..] == Stored(old(memory[..]), FrameOf(c, old(Now()), pid, page), content)
    {
      hide FindFrame, TableOf;
      var f := GetFrame(pid, page);
      AddressExact(f, c.frames, c.size);
      var at := Address(f, c.size);
      ghost var before := memory[..];
      forall x | 0 <= x < |content| {
        memory[at + x] := content[x];
      }
      assert memory[..] == Splice(before, at, content);
    }

    /** The first half of `update_cache`: a dirty page of someone else is written back. */
    method WriteBack(r: nat, pid: int, page: int)
      requires CanPlace(c, Now(), r, 0, 0)
      modifies memory
      ensures Now() == Evicted(c, old(Now()), r, pid, page)
    {
      hide Owned, Stored;
      var e := cache[r];
      if (e.pid != pid || e.page != page) && e.written {
        WritingMemory(e.pid, e.page, e.content);
      }
    }

    /** The second half: the bytes are copied over what the entry holds. */
    method Place(r: nat, pid: int, page: int, offset: nat, buffer: seq<byte>, written: bool)
      requires r < cache.Length && offset + |buffer| <= |cache[r].content|
      modifies cache, this`clock
      ensures Now() == Placed(old(Now()), r, pid, page, offset, buffer, written)
    {
      hide Splice;
      cache[r] := Entry(pid, page, Splice(cache[r].content, offset, buffer), written, clock);
      clock := clock + 1;
    }

    method WritingCache(pid: int, page: int, offset: nat, buffer: seq<byte>) returns (reply: Reply)
      requires FramesOk(c, Now()) && CacheOk(c, Now()) && Owned(c, Now(), pid, page) && offset + |buffer| <= c.size
      modifies this`quotas, this`clock, memory, cache
      ensures Step(c, old(Now()), Write(pid, page, offset, buffer), reply, Now())
      ensures FramesOk(c, Now()) && CacheOk(c, Now())
    {
      hide FramesOk, CacheOk, Owned, Evicted, Placed, IsVictim, Charged, Exceeded;
      ghost var m := Now();
      var r := GetCacheEntry(pid, page);
      if r == MISS {
        var exceeded := Charge(pid);
        r := ChooseEntry(pid, exceeded);
        if r == MISS {
          assert WriteStep(c, m, pid, page, offset, buffer, r, Stuck, Now());
          StepServes(c, m, Write(pid, page, offset, buffer), Stuck, Now());
          return Stuck;
        }
        VictimPlaces(c, m, r, pid, page, offset, |buffer|);
        assert Now() == ChargedFor(c, m, pid);
        WriteBack(r, pid, page);
      } else {
        EntryPlaces(c, m, r, offset, |buffer|);
      }
      Place(r, pid, page, offset, buffer, true);
      assert WriteStep(c, m, pid, page, offset, buffer, r, Success, Now());
      StepServes(c, m, Write(pid, page, offset, buffer), Success, Now());
      return Success;
    }

    /** `reading_cache`, and `readind_memory` on a miss: the page goes into an entry, then the bytes are
        taken from its frame. */
    method Reading(pid: int, page: int, offset: nat, size: nat) returns (reply: Reply)
      requires FramesOk(c, Now()) && CacheOk(c, Now()) && Owned(c, Now(), pid, page) && offset + size <= c.size
      modifies this`quotas, this`clock, memory, cache
      ensures Step(c, old(Now()), Read(pid, page, offset, size), reply, Now())
      ensures FramesOk(c, Now()) && CacheOk(c, Now())
    {
      hide FramesOk, CacheOk, Evicted, Placed, IsVictim, Charged, Exceeded, FindFrame, TableOf;
      ghost var m := Now();
      var r := GetCacheEntry(pid, page);
      if r != MISS {
        EntryPlaces(c, m, r, 0, c.size);
        reply := Bytes(cache[r].content[offset..offset + size]);
        cache[r] := cache[r].(lastUsed := clock);
        clock := clock + 1;
        assert Now() == Used(m, r);
        assert ReadStep(c, m, pid, page, offset, size, r, reply, Now());
        StepServes(c, m, Read(pid, page, offset, size), reply, Now());
        return;
      }
      var f := GetFrame(pid, page);
      var exceeded := Charge(pid);
      r := ChooseEntry(pid, exceeded);
      if r == MISS {
        assert ReadStep(c, m, pid, page, offset, size, r, Stuck, Now());
        StepServes(c, m, Read(pid, page, offset, size), Stuck, Now());
        return Stuck;
      }
      VictimPlaces(c, m, r, pid, page, 0, c.size);
      assert Now() == ChargedFor(c, m, pid);
      WriteBack(r, pid, page);
      AddressExact(f, c.frames, c.size);
      var at := Address(f, c.size);
      var found := memory[at..at + c.size];
      assert found == Page(memory[..], f, c.size);
      Place(r, pid, page, 0, found, false);
      reply := Bytes(memory[at..at + c.size][offset..offset + size]);
      assert ReadStep(c, m, pid, page, offset, size, r, reply, Now());
      StepServes(c, m, Read(pid, page, offset, size), reply, Now());
    }
  }

  // ---------- lists walked by index ----------

  lemma {:induction false} GrantedAt(counts: seq<Count>, pid: int, more: nat, at: nat)
    requires at <= |counts| && (at < |counts| ==> counts[at].pid == pid) && forall i :: 0 <= i < at ==> counts[i].pid != pid
    ensures Granted(counts, pid, more) ==
      if at == |counts| then counts + [Count(pid, more)] else counts[at := Count(pid, counts[at].pages + more)]
    ensures PagesOf(counts, pid) == if at == |counts| then 0 else counts[at].pages
  {
    if at > 0 { GrantedAt(counts[1..], pid, more, at - 1); }
  }

  lemma GrantingUnfolds(bytes: seq<byte>, frames: nat, free: seq<nat>, pid: int32, from: nat, n: nat)
    requires RECORD * frames <= |bytes| && n <= |free| && from + n <= 0xffff_ffff
    requires forall i :: 0 <= i < |free| ==> free[i] < frames
    ensures n == 0 ==> Granting(bytes, frames, free, pid, from, n) == bytes
    ensures n > 0 ==> RECORD * free[0] + RECORD <= |bytes|
    ensures n > 0 ==> Granting(bytes, frames, free, pid, from, n) == Granting(WithOwner(bytes, free[0], Owner(pid, from)), frames, free[1..], pid, from + 1, n - 1)
  {
  }

  lemma {:induction false} WithoutAt(counts: seq<Count>, pid: int, at: nat)
    requires at <= |counts| && (at < |counts| ==> counts[at].pid == pid) && forall i :: 0 <= i < at ==> counts[i].pid != pid
    ensures Without(counts, pid) == if at == |counts| then counts else counts[..at] + counts[at + 1..]
  {
    if at > 0 {
      WithoutAt(counts[1..], pid, at - 1);
      assert counts == [counts[0]] + counts[1..];
    }
  }

  /** A record's frame number is no part of its owner. */
  lemma NumberSpares(bytes: seq<byte>, frames: nat, f: nat, w: uint32)
    requires RECORD * frames <= |bytes| && f < frames
    ensures TableOf(Splice(bytes, RECORD * f, Bytes4(w)), frames) == TableOf(bytes, frames)
  {
    hide Word, Bytes4;
    var r := Splice(bytes, RECORD * f, Bytes4(w));
    forall g | 0 <= g < frames ensures OwnerAt(r, g) == OwnerAt(bytes, g) {
      assert r[RECORD * g + 4..RECORD * g + 8] == bytes[RECORD * g + 4..RECORD * g + 8];
      assert r[RECORD * g + 8..RECORD * g + 12] == bytes[RECORD * g + 8..RECORD * g + 12];
      WordSame(r, bytes, RECORD * g + 4);
      WordSame(r, bytes, RECORD * g + 8);
    }
  }

  /** The loop that frees frames has come to frame `f`. */
  ghost predicate FreedUpTo(bytes0: seq<byte>, free0: seq<nat>, bytes: seq<byte>, free: seq<nat>, frames: nat, pid: int, f: nat) {
    && RECORD * frames <= |bytes0| == |bytes| && f <= frames
    && Freeing(bytes0, frames, pid, 0) == Freeing(bytes, frames, pid, f)
    && free0 + FramesOf(TableOf(bytes0, frames), pid, 0) == free + FramesOf(TableOf(bytes0, frames), pid, f)
    && forall g :: f <= g < frames ==> TableOf(bytes, frames)[g] == TableOf(bytes0, frames)[g]
  }

  lemma FreedNone(bytes: seq<byte>, free: seq<nat>, frames: nat, pid: int)
    requires RECORD * frames <= |bytes|
    ensures FreedUpTo(bytes, free, bytes, free, frames, pid, 0)
  {
  }

  lemma FreedOne(bytes0: seq<byte>, free0: seq<nat>, bytes: seq<byte>, free: seq<nat>, frames: nat, pid: int, f: nat)
    requires FreedUpTo(bytes0, free0, bytes, free, frames, pid, f) && f < frames
    ensures RECORD * f + RECORD <= |bytes|
    ensures if OwnerAt(bytes, f).pid == pid then FreedUpTo(bytes0, free0, WithOwner(bytes, f, FREE), free + [f], frames, pid, f + 1)
            else FreedUpTo(bytes0, free0, bytes, free, frames, pid, f + 1)
  {
    hide Freeing, WithOwner, FramesOf, OwnerAt, TableOf;
    var t := TableOf(bytes0, frames);
    FreeingUnfolds(bytes, frames, pid, f);
    FramesOfUnfolds(t, pid, f);
    OwnerChanged(bytes, frames, f, FREE);
    assert free + ([f] + FramesOf(t, pid, f + 1)) == free + [f] + FramesOf(t, pid, f + 1);
  }

  lemma FreedAll(bytes0: seq<byte>, free0: seq<nat>, bytes: seq<byte>, free: seq<nat>, frames: nat, pid: int)
    requires FreedUpTo(bytes0, free0, bytes, free, frames, pid, frames)
    ensures RECORD * frames <= |bytes0| && bytes == Freeing(bytes0, frames, pid, 0) && free == free0 + FramesOf(TableOf(bytes0, frames), pid, 0)
  {
    FreeingUnfolds(bytes, frames, pid, frames);
    FramesOfUnfolds(TableOf(bytes0, frames), pid, frames);
  }

  lemma FreeingUnfolds(bytes: seq<byte>, frames: nat, pid: int, f: nat)
    requires RECORD * frames <= |bytes| && f <= frames
    ensures f == frames ==> Freeing(bytes, frames, pid, f) == bytes
    ensures f < frames ==>
      Freeing(bytes, frames, pid, f) == Freeing(if OwnerAt(bytes, f).pid == pid then WithOwner(bytes, f, FREE) else bytes, frames, pid, f + 1)
    ensures f < frames ==> TableOf(bytes, frames)[f] == OwnerAt(bytes, f)
  {
  }

  lemma FramesOfUnfolds(t: seq<Owner>, pid: int, f: nat)
    requires f <= |t|
    ensures FramesOf(t, pid, f) == if f == |t| then [] else (if t[f].pid == pid then [f] else []) + FramesOf(t, pid, f + 1)
  {
  }

  lemma {:induction false} ChargedAt(qs: seq<Quota>, pid: int, most: nat, at: nat)
    requires at <= |qs| && (at < |qs| ==> qs[at].pid == pid) && forall i :: 0 <= i < at ==> qs[i].pid != pid
    ensures Charged(qs, pid, most) ==
      if at == |qs| then qs + [Quota(pid, 1)]
      else if UsedUp(qs[at].entries, most) then qs
      else qs[at := Quota(pid, Next16(qs[at].entries))]
    ensures Exceeded(qs, pid, most) <==> at < |qs| && UsedUp(qs[at].entries, most)
  {
    if at > 0 {
      ChargedAt(qs[1..], pid, most, at - 1);
      assert qs == [qs[0]] + qs[1..];
      KnownCons(qs[0], qs[1..], pid);
    }
  }

  // ---------- entries of a cache in order ----------

  lemma EntryPlaces(c: Config, m: Memory, r: nat, offset: nat, n: nat)
    requires CacheOk(c, m) && r < |m.entries| && offset + n <= c.size
    ensures CanPlace(c, m, r, offset, n)
  {
    assert EntryOk(c, m, r);
  }

  lemma VictimPlaces(c: Config, m: Memory, r: int, pid: int, page: int, offset: nat, n: nat)
    requires CacheOk(c, m) && IsVictim(m.entries, Exceeded(m.quotas, pid, c.most), pid, r) && r != MISS && offset + n <= c.size
    ensures CanPlace(c, m, r, offset, n) && CanPlace(c, ChargedFor(c, m, pid), r, 0, 0)
  {
    hide CacheOk, Owned;
    EntryPlaces(c, m, r, offset, n);
    ChargedOwned(c, m, pid, m.entries[r].pid, m.entries[r].page);
  }

  lemma ChargedOwned(c: Config, m: Memory, pid: int, p: int, g: int)
    ensures Owned(c, m, p, g) ==> Owned(c, ChargedFor(c, m, pid), p, g)
  {
  }
}
