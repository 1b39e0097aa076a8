/** The paged memory's inverted table, stored in the memory it describes, and its free frames. */
module Frames {
  import opened Counting
  import opened Words

  /** The part of a record that changes; its third word repeats the frame number. */
  datatype Owner = Owner(pid: int32, page: uint32)

  const RECORD := 12

  const FREE: Owner := Owner(0, 0)

  // ---------- records as bytes ----------

  function Word(bytes: seq<byte>, at: nat): uint32
    requires at + 4 <= |bytes|
  {
    bytes[at] as int + 0x100 * (bytes[at + 1] as int) + 0x1_0000 * (bytes[at + 2] as int) + 0x100_0000 * (bytes[at + 3] as int)
  }

  function Bytes4(w: uint32): (r: seq<byte>)
    ensures |r| == 4 && Word(r, 0) == w
  {
    [w % 0x100, w / 0x100 % 0x100, w / 0x1_0000 % 0x100, w / 0x100_0000]
  }

  function Signed(w: uint32): int32 {
    if w < 0x8000_0000 then w else w - 0x1_0000_0000
  }

  function Unsigned(x: int32): (w: uint32)
    ensures Signed(w) == x
  {
    if x >= 0 then x else x + 0x1_0000_0000
  }

  function OwnerAt(bytes: seq<byte>, f: nat): Owner
    requires RECORD * f + RECORD <= |bytes|
  {
    Owner(Signed(Word(bytes, RECORD * f + 4)), Word(bytes, RECORD * f + 8))
  }

  /** The inverted table stored in the first `12 * frames` bytes. */
  function TableOf(bytes: seq<byte>, frames: nat): (t: seq<Owner>)
    requires RECORD * frames <= |bytes|
    ensures |t| == frames
  {
    seq(frames, f requires 0 <= f < frames => OwnerAt(bytes, f))
  }

  lemma WordSame(a: seq<byte>, b: seq<byte>, at: nat)
    requires at + 4 <= |a| && at + 4 <= |b| && a[at..at + 4] == b[at..at + 4]
    ensures Word(a, at) == Word(b, at)
  {
    assert a[at] == a[at..at + 4][0] && a[at + 1] == a[at..at + 4][1] && a[at + 2] == a[at..at + 4][2] && a[at + 3] == a[at..at + 4][3];
    assert b[at] == b[at..at + 4][0] && b[at + 1] == b[at..at + 4][1] && b[at + 2] == b[at..at + 4][2] && b[at + 3] == b[at..at + 4][3];
  }

  /** Bytes that agree on the table's range hold the same table. */
  lemma TableSame(a: seq<byte>, b: seq<byte>, frames: nat)
    requires RECORD * frames <= |a| && RECORD * frames <= |b|
    requires forall x :: 0 <= x < RECORD * frames ==> a[x] == b[x]
    ensures TableOf(a, frames) == TableOf(b, frames)
  {
    forall f | 0 <= f < frames ensures OwnerAt(a, f) == OwnerAt(b, f) {
      assert a[RECORD * f + 4..RECORD * f + 8] == b[RECORD * f + 4..RECORD * f + 8];
      assert a[RECORD * f + 8..RECORD * f + 12] == b[RECORD * f + 8..RECORD * f + 12];
      WordSame(a, b, RECORD * f + 4);
      WordSame(a, b, RECORD * f + 8);
    }
  }

  /** Storing a new owner in record `f`. */
  function WithOwner(bytes: seq<byte>, f: nat, o: Owner): (r: seq<byte>)
    requires RECORD * f + RECORD <= |bytes|
    ensures |r| == |bytes|
  {
    Splice(bytes, RECORD * f + 4, Bytes4(Unsigned(o.pid)) + Bytes4(o.page))
  }

  /** It changes that entry of the table, and no byte outside the table. */
  lemma OwnerChanged(bytes: seq<byte>, frames: nat, f: nat, o: Owner)
    requires RECORD * frames <= |bytes| && f < frames
    ensures TableOf(WithOwner(bytes, f, o), frames) == TableOf(bytes, frames)[f := o]
    ensures WithOwner(bytes, f, o)[RECORD * frames..] == bytes[RECORD * frames..]
  {
    var r := WithOwner(bytes, f, o);
    forall g | 0 <= g < frames && g != f ensures OwnerAt(r, g) == OwnerAt(bytes, g) {
      assert r[RECORD * g + 4..RECORD * g + 8] == bytes[RECORD * g + 4..RECORD * g + 8];
      assert r[RECORD * g + 8..RECORD * g + 12] == bytes[RECORD * g + 8..RECORD * g + 12];
      WordSame(r, bytes, RECORD * g + 4);
      WordSame(r, bytes, RECORD * g + 8);
    }
  }

  // ---------- frames as bytes ----------

  /** The frames the table itself takes up, as the code computes them. */
  function FirstFree(frames: nat, size: nat): nat
    requires size > 0
  {
    U32(RECORD * frames) / size + if U32(RECORD * frames) % size > 0 then 1 else 0
  }

  /** The byte where a frame begins, a 32-bit product. Memory is allocated up to where the frame past the
      last one would begin. */
  function Address(f: nat, size: nat): (r: nat)
    ensures r < 0x1_0000_0000
  {
    U32(f * size)
  }

  /** Memory is as large as all frames together, and that many bytes can be counted. */
  predicate Shape(bytes: seq<byte>, frames: nat, size: nat) {
    size >= RECORD && |bytes| == frames * size < 0x1_0000_0000
  }

  lemma MulLess(a: nat, b: nat, size: nat)
    requires a < b
    ensures a * size + size <= b * size
  {
    assert (a + 1) * size <= b * size by { MulMono(a + 1, b, size); }
  }

  lemma MulMono(a: nat, b: nat, size: nat)
    requires a <= b
    ensures a * size <= b * size
  {
    assert b * size == a * size + (b - a) * size;
  }

  /** The table fits below the first free frame, and that is a frame or the end of memory. */
  lemma TableBelow(frames: nat, size: nat)
    requires size >= RECORD && frames * size < 0x1_0000_0000
    ensures RECORD * frames <= FirstFree(frames, size) * size && FirstFree(frames, size) <= frames && RECORD * frames <= frames * size
  {
    MulMono(RECORD, size, frames);
    assert RECORD * frames <= size * frames == frames * size;
    U32Exact(RECORD * frames);
    var q, r := RECORD * frames / size, RECORD * frames % size;
    assert RECORD * frames == q * size + r;
    assert (q + 1) * size == q * size + size;
    if q > frames {
      MulLess(frames, q, size);
      assert false;
    } else if q == frames && r > 0 {
      assert false;
    }
  }

  /** No earlier frame is clear of the table. */
  lemma FirstFreeIsLeast(frames: nat, size: nat)
    requires size >= RECORD && frames * size < 0x1_0000_0000 && frames > 0
    ensures FirstFree(frames, size) > 0 && (FirstFree(frames, size) - 1) * size < RECORD * frames
  {
    TableBelow(frames, size);
    U32Exact(RECORD * frames);
    var q, r := RECORD * frames / size, RECORD * frames % size;
    assert RECORD * frames == q * size + r;
    assert (q - 1) * size == q * size - size;
  }

  // ---------- isolation ----------

  predicate Clear(f: nat, frames: nat, size: nat) {
    RECORD * frames <= Address(f, size) && Address(f, size) + size <= Address(frames, size)
  }

  predicate Apart(f: nat, g: nat, size: nat) {
    Address(f, size) + size <= Address(g, size) || Address(g, size) + size <= Address(f, size)
  }

  /** The table fits the memory allocated, and a write-back to any frame that can be granted stays within
      it, behind the table and off the other such frames. */
  ghost predicate Isolated(frames: nat, size: nat)
    requires size > 0
  {
    && RECORD * frames <= Address(frames, size)
    && (forall f :: FirstFree(frames, size) <= f < frames ==> Clear(f, frames, size))
    && (forall f, g :: FirstFree(frames, size) <= f < g < frames ==> Apart(f, g, size))
  }

  lemma AddressExact(f: nat, frames: nat, size: nat)
    requires f < frames && frames * size < 0x1_0000_0000
    ensures Address(f, size) == f * size && f * size + size <= frames * size
  {
    MulLess(f, frames, size);
    U32Exact(f * size);
  }

  lemma FitsIsIsolated(frames: nat, size: nat)
    requires size >= RECORD && frames * size < 0x1_0000_0000
    ensures Isolated(frames, size)
  {
    hide U32, Address, FirstFree;
    TableBelow(frames, size);
    RoomExact(frames, size);
    forall f | FirstFree(frames, size) <= f < frames ensures Clear(f, frames, size) {
      AddressExact(f, frames, size);
      MulMono(FirstFree(frames, size), f, size);
    }
    forall f, g | FirstFree(frames, size) <= f < g < frames ensures Apart(f, g, size) {
      AddressExact(f, frames, size);
      AddressExact(g, frames, size);
      MulLess(f, g, size);
    }
  }

  lemma RoomExact(frames: nat, size: nat)
    requires frames * size < 0x1_0000_0000
    ensures Address(frames, size) == frames * size
  {
    U32Exact(frames * size);
  }

  /** The frame that reaches across 2^32 begins below it and ends above; the next one begins within the
      first `size` bytes. */
  lemma FrameAcross(size: nat) returns (f: nat)
    requires 0 < size < 0x1_0000_0000
    ensures f >= 1 && f * size < 0x1_0000_0000 <= f * size + size
    ensures Address(f, size) + size >= 0x1_0000_0000 && Address(f + 1, size) < size
  {
    f := 0xffff_ffff / size;
    assert 0xffff_ffff == f * size + 0xffff_ffff % size;
    assert (f + 1) * size == f * size + size;
    U32Exact(f * size);
    Wrapped(f * size + size);
  }

  lemma Wrapped(x: int)
    requires 0x1_0000_0000 <= x < 0x2_0000_0000
    ensures U32(x) == x - 0x1_0000_0000
  {
  }

  lemma Between(a: nat, b: nat, size: nat)
    requires a * size < b * size
    ensures a < b
  {
    if b <= a { MulMono(b, a, size); }
  }

  /** Past 2^32 bytes something collides: the frame across 2^32 does not fit, or it belongs to the table,
      and then the next one overwrites the table or there is no room for the table to begin with. */
  lemma WrapIsNotIsolated(frames: nat, size: uint32)
    requires size >= RECORD && frames * size >= 0x1_0000_0000
    ensures !Isolated(frames, size)
  {
    hide U32;
    var f := FrameAcross(size);
    Between(f, frames, size);
    if RECORD * frames <= Address(frames, size) {
      U32Exact(RECORD * frames);
      var first := FirstFree(frames, size);
      if first <= f {
        assert !Clear(f, frames, size);
      } else {
        TableAcross(frames, size, f);
        if f + 1 < frames { assert !Clear(f + 1, frames, size); }
      }
    }
  }

  lemma TableAcross(frames: nat, size: nat, f: nat)
    requires 0 < size && RECORD * frames < 0x1_0000_0000 <= f * size + size && f >= 1
    requires f < FirstFree(frames, size)
    ensures FirstFree(frames, size) == f + 1 && RECORD * frames > size
  {
    U32Exact(RECORD * frames);
    hide U32;
    var q, r := RECORD * frames / size, RECORD * frames % size;
    assert RECORD * frames == q * size + r;
    assert (f + 1) * size == f * size + size;
    if q >= f + 1 {
      MulMono(f + 1, q, size);
      assert false;
    }
    MulMono(1, f, size);
  }

  /** Page write-backs never touch the table, the other pages or anything behind the memory exactly when
      the product of frame count and frame size fits 32 bits. */
  lemma IsolatedIff(frames: nat, size: uint32)
    requires size >= RECORD
    ensures Isolated(frames, size) <==> frames * size < 0x1_0000_0000
  {
    if frames * size < 0x1_0000_0000 {
      FitsIsIsolated(frames, size);
    } else {
      WrapIsNotIsolated(frames, size);
    }
  }

  // ---------- pages ----------

  function Page(bytes: seq<byte>, f: nat, size: nat): (p: seq<byte>)
    requires f * size + size <= |bytes|
    ensures |p| == size
  {
    bytes[f * size..f * size + size]
  }

  /** Writing a page into its frame. */
  function Stored(bytes: seq<byte>, f: nat, page: seq<byte>): (r: seq<byte>)
    requires f * |page| + |page| <= |bytes|
    ensures |r| == |bytes|
  {
    Splice(bytes, f * |page|, page)
  }

  /** A write-back to a frame behind the table changes that frame, no other, and not the table. */
  lemma StoredOnlyThere(bytes: seq<byte>, frames: nat, f: nat, page: seq<byte>)
    requires Shape(bytes, frames, |page|) && FirstFree(frames, |page|) <= f < frames
    ensures RECORD * frames <= |bytes| && f * |page| + |page| <= |bytes|
    ensures var r := Stored(bytes, f, page);
      && TableOf(r, frames) == TableOf(bytes, frames)
      && Page(r, f, |page|) == page
      && forall h :: 0 <= h < frames && h != f ==> InBounds(bytes, h, |page|) && Page(r, h, |page|) == Page(bytes, h, |page|)
  {
    var size := |page|;
    TableBelow(frames, size);
    MulLess(f, frames, size);
    MulMono(FirstFree(frames, size), f, size);
    var r := Stored(bytes, f, page);
    TableSame(r, bytes, frames);
    hide TableOf, Page;
    forall h | 0 <= h < frames && h != f ensures InBounds(bytes, h, size) && Page(r, h, size) == Page(bytes, h, size) {
      OtherPage(bytes, frames, f, page, h);
    }
  }

  lemma OtherPage(bytes: seq<byte>, frames: nat, f: nat, page: seq<byte>, h: nat)
    requires |bytes| == frames * |page| && f < frames && h < frames && h != f && f * |page| + |page| <= |bytes|
    ensures InBounds(bytes, h, |page|) && Page(Stored(bytes, f, page), h, |page|) == Page(bytes, h, |page|)
  {
    var size := |page|;
    MulLess(h, frames, size);
    if h < f { MulLess(h, f, size); } else { MulLess(f, h, size); }
    SliceApart(bytes, f * size, page, h * size, size);
  }

  /** Bytes outside the range written are as they were. */
  lemma SliceApart(bytes: seq<byte>, at: nat, src: seq<byte>, from: nat, n: nat)
    requires at + |src| <= |bytes| && from + n <= |bytes| && (from + n <= at || at + |src| <= from)
    ensures Splice(bytes, at, src)[from..from + n] == bytes[from..from + n]
  {
  }

  predicate InBounds(bytes: seq<byte>, h: nat, size: nat) {
    h * size + size <= |bytes|
  }

  /** Storing an owner leaves every frame behind the table as it was. */
  lemma OwnerSparesPages(bytes: seq<byte>, frames: nat, size: nat, f: nat, o: Owner, h: nat)
    requires Shape(bytes, frames, size) && f < frames && FirstFree(frames, size) <= h < frames
    ensures RECORD * f + RECORD <= |bytes| && InBounds(bytes, h, size) && Page(WithOwner(bytes, f, o), h, size) == Page(bytes, h, size)
  {
    TableBelow(frames, size);
    MulLess(h, frames, size);
    MulMono(FirstFree(frames, size), h, size);
    OwnerChanged(bytes, frames, f, o);
    assert WithOwner(bytes, f, o)[RECORD * frames..][h * size - RECORD * frames..h * size - RECORD * frames + size]
        == bytes[RECORD * frames..][h * size - RECORD * frames..h * size - RECORD * frames + size];
  }

  // ---------- who owns what ----------

  datatype Count = Count(pid: int, pages: nat)

  /** The page count of the first record for `pid`, zero without one. */
  function PagesOf(counts: seq<Count>, pid: int): nat {
    if counts == [] then 0 else if counts[0].pid == pid then counts[0].pages else PagesOf(counts[1..], pid)
  }

  predicate Listed(counts: seq<Count>, pid: int) {
    exists i :: 0 <= i < |counts| && counts[i].pid == pid
  }

  /** The first frame that holds the page, or the number of frames. */
  function FindFrame(t: seq<Owner>, pid: int, page: int, from: nat): (f: nat)
    requires from <= |t|
    ensures from <= f <= |t| && (f < |t| ==> t[f].pid == pid && t[f].page == page)
    ensures forall h :: from <= h < f ==> !(t[h].pid == pid && t[h].page == page)
    decreases |t| - from
  {
    if from == |t| || (t[from].pid == pid && t[from].page == page) then from else FindFrame(t, pid, page, from + 1)
  }

  ghost predicate OneEach(counts: seq<Count>) {
    && (forall i :: 0 <= i < |counts| ==> counts[i].pid > 0)
    && forall i, j :: 0 <= i < j < |counts| ==> counts[i].pid != counts[j].pid
  }

  ghost predicate FreeExact(t: seq<Owner>, free: seq<nat>) {
    && (forall i, j :: 0 <= i < j < |free| ==> free[i] != free[j])
    && (forall i :: 0 <= i < |free| ==> free[i] < |t| && t[free[i]].pid == 0)
    && (forall f :: 0 <= f < |t| && t[f].pid == 0 ==> f in free)
  }

  /** Every page in use lies in one frame, and every page a process was granted is in use. */
  ghost predicate PagesExact(t: seq<Owner>, counts: seq<Count>, reserved: nat) {
    && reserved <= |t|
    && (forall f :: 0 <= f < |t| ==> if f < reserved then t[f].pid < 0 else t[f].pid >= 0)
    && (forall f :: 0 <= f < |t| && t[f].pid > 0 ==> t[f].page < PagesOf(counts, t[f].pid))
    && (forall f, h :: 0 <= f < |t| && 0 <= h < |t| && t[f].pid > 0 && t[f] == t[h] ==> f == h)
    && (forall p, g: nat :: p > 0 && g < PagesOf(counts, p) ==> FindFrame(t, p, g, 0) < |t|)
  }

  /** The free list holds exactly the frames of nobody, once each, and pages and frames match one to one. */
  ghost predicate Allocated(t: seq<Owner>, free: seq<nat>, counts: seq<Count>, reserved: nat) {
    OneEach(counts) && FreeExact(t, free) && PagesExact(t, counts, reserved)
  }

  /** A process with `n` pages owns pages 0 to n-1, each in one frame, and no other. */
  lemma OwnsExactly(t: seq<Owner>, free: seq<nat>, counts: seq<Count>, reserved: nat, pid: int, page: nat)
    requires Allocated(t, free, counts, reserved) && pid > 0
    ensures page < PagesOf(counts, pid) <==> FindFrame(t, pid, page, 0) < |t|
    ensures forall f :: 0 <= f < |t| && t[f].pid == pid && t[f].page == page ==> f == FindFrame(t, pid, page, 0)
    ensures FindFrame(t, pid, page, 0) < |t| ==> reserved <= FindFrame(t, pid, page, 0)
  {
    var f := FindFrame(t, pid, page, 0);
    forall h | 0 <= h < |t| && t[h].pid == pid && t[h].page == page ensures h == f {
      assert t[h] == t[f];
    }
  }

  /** The pages of a process and the free frames together are no more than all frames. */
  lemma NoMoreThanFrames(t: seq<Owner>, free: seq<nat>, counts: seq<Count>, reserved: nat, pid: int)
    requires Allocated(t, free, counts, reserved) && pid > 0
    ensures PagesOf(counts, pid) + |free| <= |t|
  {
    hide PagesOf;
    var n := PagesOf(counts, pid);
    var own := seq(n, g requires 0 <= g < n => FindFrame(t, pid, g, 0));
    forall g | 0 <= g < n ensures own[g] < |t| && t[own[g]].pid == pid && t[own[g]].page == g {
      OwnsExactly(t, free, counts, reserved, pid, g);
    }
    var q: seq<int> := own + free;
    forall i, j | 0 <= i < j < |q| ensures q[i] != q[j] {
      if j < n { assert t[own[i]].page == i && t[own[j]].page == j; }
    }
    DifferentBelow(q, |t|);
  }

  // ---------- granting a page ----------

  function Granted(counts: seq<Count>, pid: int, more: nat): seq<Count> {
    if counts == [] then [Count(pid, more)]
    else if counts[0].pid == pid then [Count(pid, counts[0].pages + more)] + counts[1..]
    else [counts[0]] + Granted(counts[1..], pid, more)
  }

  lemma {:induction false} GrantedCounts(counts: seq<Count>, pid: int, more: nat, p: int)
    ensures PagesOf(Granted(counts, pid, more), p) == PagesOf(counts, p) + if p == pid then more else 0
  {
    if counts != [] { GrantedCounts(counts[1..], pid, more, p); }
  }

  lemma {:induction false} GrantedPids(counts: seq<Count>, pid: int, more: nat)
    ensures forall p :: Listed(Granted(counts, pid, more), p) <==> Listed(counts, p) || p == pid
  {
    if counts == [] {
      assert Granted(counts, pid, more)[0].pid == pid;
    } else {
      hide Listed;
      GrantedPids(counts[1..], pid, more);
      assert counts == [counts[0]] + counts[1..];
      ListedCons(counts[0], counts[1..]);
      ListedCons(Granted(counts, pid, more)[0], Granted(counts, pid, more)[1..]);
    }
  }

  lemma {:induction false} GrantedOnce(counts: seq<Count>, pid: int, more: nat)
    requires OneEach(counts) && pid > 0
    ensures OneEach(Granted(counts, pid, more))
  {
    hide Listed;
    if counts != [] && counts[0].pid != pid {
      var tail := Granted(counts[1..], pid, more);
      GrantedOnce(counts[1..], pid, more);
      GrantedPids(counts[1..], pid, more);
      forall j | 0 <= j < |tail| ensures tail[j].pid != counts[0].pid {
        ListedAt(tail, j);
        HeadNotListed(counts);
      }
    }
  }

  lemma ListedAt(counts: seq<Count>, j: nat)
    requires j < |counts|
    ensures Listed(counts, counts[j].pid)
  {
  }

  lemma HeadNotListed(counts: seq<Count>)
    requires OneEach(counts) && counts != []
    ensures !Listed(counts[1..], counts[0].pid)
  {
  }

  lemma ListedCons(c: Count, counts: seq<Count>)
    ensures forall p :: Listed([c] + counts, p) <==> p == c.pid || Listed(counts, p)
  {
    var all := [c] + counts;
    forall p ensures Listed(all, p) <==> p == c.pid || Listed(counts, p) {
      if p == c.pid { assert all[0].pid == p; }
      if Listed(counts, p) {
        var i :| 0 <= i < |counts| && counts[i].pid == p;
        assert all[i + 1].pid == p;
      }
    }
  }

  /** The head of the free list becomes the next page of `pid`: everything still matches. */
  lemma GrantKeeps(t: seq<Owner>, free: seq<nat>, counts: seq<Count>, reserved: nat, pid: int32)
    requires Allocated(t, free, counts, reserved) && free != [] && pid > 0 && PagesOf(counts, pid) < 0x1_0000_0000
    ensures free[0] < |t| && Allocated(t[free[0] := Owner(pid, PagesOf(counts, pid))], free[1..], Granted(counts, pid, 1), reserved)
  {
    hide FindFrame, Granted;
    var f, n := free[0], PagesOf(counts, pid);
    var t', counts' := t[f := Owner(pid, n)], Granted(counts, pid, 1);
    GrantedOnce(counts, pid, 1);
    assert FreeExact(t', free[1..]) by {
      forall h | 0 <= h < |t'| && t'[h].pid == 0 ensures h in free[1..] {
        assert h in free && h != free[0];
      }
    }
    forall p ensures PagesOf(counts', p) == PagesOf(counts, p) + if p == pid then 1 else 0 {
      GrantedCounts(counts, pid, 1, p);
    }
    assert forall h :: 0 <= h < |t| && t[h].pid == pid ==> t[h].page < n;
    forall p, g: nat | p > 0 && g < PagesOf(counts', p) ensures FindFrame(t', p, g, 0) < |t'| {
      if p == pid && g == n {
        FoundIfThere(t', p, g, f);
      } else {
        assert FindFrame(t, p, g, 0) < |t|;
        FoundIfThere(t', p, g, FindFrame(t, p, g, 0));
      }
    }
  }

  lemma FoundIfThere(t: seq<Owner>, p: int, g: int, f: nat)
    requires f < |t| && t[f].pid == p && t[f].page == g
    ensures FindFrame(t, p, g, 0) < |t|
  {
  }

  // ---------- ending a process ----------

  /** The frames of `pid`, in order. */
  function FramesOf(t: seq<Owner>, pid: int, from: nat): (r: seq<nat>)
    requires from <= |t|
    ensures forall f :: f in r <==> from <= f < |t| && t[f].pid == pid
    ensures forall i, j :: 0 <= i < j < |r| ==> r[i] < r[j]
    decreases |t| - from
  {
    if from == |t| then []
    else
      var rest := FramesOf(t, pid, from + 1);
      assert forall j :: 0 <= j < |rest| ==> rest[j] in rest;
      (if t[from].pid == pid then [from] else []) + rest
  }

  function Freed(t: seq<Owner>, pid: int): (r: seq<Owner>)
    ensures |r| == |t|
  {
    seq(|t|, f requires 0 <= f < |t| => if t[f].pid == pid then FREE else t[f])
  }

  /** The list without the first record for `pid`. */
  function Without(counts: seq<Count>, pid: int): seq<Count> {
    if counts == [] then [] else if counts[0].pid == pid then counts[1..] else [counts[0]] + Without(counts[1..], pid)
  }

  lemma {:induction false} UnlistedHasNone(counts: seq<Count>, pid: int)
    requires forall i :: 0 <= i < |counts| ==> counts[i].pid != pid
    ensures PagesOf(counts, pid) == 0
  {
    if counts != [] { UnlistedHasNone(counts[1..], pid); }
  }

  lemma {:induction false} WithoutCounts(counts: seq<Count>, pid: int, p: int)
    requires OneEach(counts)
    ensures PagesOf(Without(counts, pid), p) == if p == pid then 0 else PagesOf(counts, p)
  {
    if counts != [] {
      if counts[0].pid == pid {
        UnlistedHasNone(counts[1..], pid);
      } else {
        WithoutCounts(counts[1..], pid, p);
      }
    }
  }

  lemma {:induction false} WithoutPids(counts: seq<Count>, pid: int)
    requires OneEach(counts)
    ensures OneEach(Without(counts, pid)) && forall p :: Listed(Without(counts, pid), p) ==> Listed(counts, p)
  {
    if counts != [] {
      ListedCons(counts[0], counts[1..]);
      assert counts == [counts[0]] + counts[1..];
      if counts[0].pid != pid {
        var tail := Without(counts[1..], pid);
        WithoutPids(counts[1..], pid);
        ListedCons(counts[0], tail);
        forall j | 0 <= j < |tail| ensures tail[j].pid != counts[0].pid {
          assert Listed(tail, tail[j].pid);
        }
      }
    }
  }

  /** Ending a process gives back exactly its frames: everything still matches. */
  lemma EndKeeps(t: seq<Owner>, free: seq<nat>, counts: seq<Count>, reserved: nat, pid: int)
    requires Allocated(t, free, counts, reserved) && pid > 0
    ensures Allocated(Freed(t, pid), free + FramesOf(t, pid, 0), Without(counts, pid), reserved)
  {
    hide FindFrame, Without, FramesOf;
    var t', counts' := Freed(t, pid), Without(counts, pid);
    WithoutPids(counts, pid);
    forall p ensures PagesOf(counts', p) == if p == pid then 0 else PagesOf(counts, p) {
      WithoutCounts(counts, pid, p);
    }
    forall p, g: nat | p > 0 && g < PagesOf(counts', p) ensures FindFrame(t', p, g, 0) < |t'| {
      assert FindFrame(t, p, g, 0) < |t|;
      FoundIfThere(t', p, g, FindFrame(t, p, g, 0));
    }
    EndFrees(t, free, pid);
  }

  lemma EndFrees(t: seq<Owner>, free: seq<nat>, pid: int)
    requires FreeExact(t, free) && pid != 0
    ensures FreeExact(Freed(t, pid), free + FramesOf(t, pid, 0))
  {
    hide FramesOf;
    var more := FramesOf(t, pid, 0);
    var t', free' := Freed(t, pid), free + more;
    forall i, j | 0 <= i < j < |free'| ensures free'[i] != free'[j] {
      if i < |free| <= j { assert free'[j] in more; }
    }
    forall i | 0 <= i < |free'| ensures free'[i] < |t'| && t'[free'[i]].pid == 0 {
      if i >= |free| { assert free'[i] in more; }
    }
    forall f | 0 <= f < |t'| && t'[f].pid == 0 ensures f in free' {
      assert f in free || f in more;
    }
  }

  // ---------- loading ----------

  /** The table, the free list and the counts a fresh memory starts with. */
  ghost predicate Loaded(t: seq<Owner>, free: seq<nat>, reserved: nat) {
    && reserved <= |t| < 0x1_0000_0000
    && (forall f :: 0 <= f < |t| ==> t[f] == if f < reserved then Owner(-1, f) else FREE)
    && |free| == |t| - reserved
    && (forall i :: 0 <= i < |free| ==> free[i] == reserved + i)
  }

  lemma LoadedIsAllocated(t: seq<Owner>, free: seq<nat>, reserved: nat)
    requires Loaded(t, free, reserved)
    ensures Allocated(t, free, [], reserved)
  {
    forall f | 0 <= f < |t| && t[f].pid == 0 ensures f in free {
      assert free[f - reserved] == f;
    }
  }
}
