/** What write, truncate and unlink do to a well-formed volume, and what that means for the files. */
module Effects {
  import opened Osada
  import opened Words
  import opened Volumes
  import opened Allocation
  import opened Contents
  import opened Counting
  import opened Growth

  // ---------- effects on the volume ----------

  /** A growth to `size` bytes: it succeeds exactly when `room` says so and takes the lowest free blocks,
      or it leaves the table, the bitmap, the data and every chain as they were. */
  ghost predicate GrowEffect(v: Volume, chains: seq<Chain>, slot: int, size: uint32, room: bool, ok: bool, w: Volume, chains': seq<Chain>) {
    && 0 <= slot < |chains| && Growable(v, slot, chains[slot], size)
    && (ok <==> room)
    && (if ok
        then w == Grown(v, slot, chains[slot], size) && chains' == chains[slot := chains[slot] + NewBlocks(v, chains[slot], size)]
        else Undone(v, w, NewBlocks(v, chains[slot], size)) && chains' == chains)
  }

  /** `osada_write` of a non-empty request: `u` is the volume between growth and copy. */
  ghost predicate WriteEffect(v: Volume, chains: seq<Chain>, slot: int, offset: nat, buffer: seq<byte>, code: Code,
                              u: Volume, w: Volume, chains': seq<Chain>) {
    && LiveFile(v, slot) && |chains'| == |chains| == |v.table|
    && code in {Sexe, ENoSpc}
    && (if offset + |buffer| > v.table[slot].fileSize
        then offset + |buffer| < 0x8000_0000
             && GrowEffect(v, chains, slot, offset + |buffer|, RoomFor(v, chains[slot], offset + |buffer|), code == Sexe, u, chains')
        else code == Sexe && u == v && chains' == chains)
    && (if code == Sexe then Copied(u, w, chains'[slot], offset, buffer, |buffer|) else w == u)
  }

  /** Whether the scan of `osada_truncate` finds its blocks before reaching the last one of the device. */
  predicate TruncateRoom(v: Volume, ch: Chain, size: nat) {
    |ch| < BlocksFor(size) && |v.bits| > 0 && CountFree(v.bits, 0, |v.bits| - 1) >= BlocksFor(size) - |ch|
  }

  ghost predicate TruncateEffect(v: Volume, chains: seq<Chain>, slot: int, size: uint32, code: Code, w: Volume, chains': seq<Chain>) {
    && LiveFile(v, slot) && |chains| == |v.table|
    && code in {Sexe, ENoSpc}
    && var ch := chains[slot];
       if size > v.table[slot].fileSize && BlocksFor(size) > |ch|
       then GrowEffect(v, chains, slot, size, TruncateRoom(v, ch, size), code == Sexe, w, chains')
       else if size < v.table[slot].fileSize && BlocksFor(size) < |ch|
       then code == Sexe && w == Cut(Resize(v, slot, size), slot, ch, BlocksFor(size)) && chains' == chains[slot := ch[..BlocksFor(size)]]
       else code == Sexe && w == Resize(v, slot, size) && chains' == chains
  }

  function Deleting(v: Volume, slot: nat): Volume
    requires slot < |v.table|
  {
    v.(table := v.table[slot := v.table[slot].(state := Deleted)])
  }

  ghost predicate UnlinkEffect(v: Volume, chains: seq<Chain>, slot: int, w: Volume, chains': seq<Chain>) {
    && LiveFile(v, slot) && |chains| == |v.table|
    && w == Deleting(Cut(v, slot, chains[slot], 0), slot)
    && chains' == chains[slot := []]
  }

  /** What a read of `size` bytes at `offset` gives back: the guard needs two bytes left at `offset`. */
  function ReadSlice(content: seq<byte>, offset: nat, size: nat): seq<byte> {
    if offset + 1 >= |content| then []
    else if offset + size > |content| then content[offset..]
    else content[offset..offset + size]
  }

  /** What a read hands back: bytes, or the wild pointer of an empty file, or no bytes and a count that is
      negative, because the end of the range passed 2^32 and the size was not clipped. */
  datatype ReadOutcome = Content(bytes: seq<byte>) | WildPointer | BadCount(count: int)

  function ReadEffect(content: seq<byte>, offset: uint32, size: uint32): ReadOutcome {
    if content == [] && offset < 0xffff_ffff then WildPointer
    else if offset + 1 < |content| && offset + size >= 0x1_0000_0000 then BadCount(size - 0x1_0000_0000)
    else Content(ReadSlice(content, offset, size))
  }

  function Lesser(a: nat, b: nat): nat {
    if a < b then a else b
  }

  /** A read gives back every byte the range shares with the file, except that a range starting at the
      very last byte gives back nothing. */
  lemma ReadMissesOnlyLastByte(content: seq<byte>, offset: nat, size: nat)
    ensures ReadSlice(content, offset, size) == content[Lesser(offset, |content|)..Lesser(offset + size, |content|)]
      <==> !(offset + 1 == |content| && size > 0)
  {
    var whole := content[Lesser(offset, |content|)..Lesser(offset + size, |content|)];
    if offset + 1 == |content| && size > 0 { assert |whole| == 1; }
  }

  /** A read answers with the bytes its range shares with the file exactly when the file is not empty (or
      the offset is the one that the unsigned guard stops), the range does not start at the last byte, and
      it does not start before that and end at 2^32 or beyond. */
  lemma ReadAnswersRangeIff(content: seq<byte>, offset: uint32, size: uint32)
    ensures ReadEffect(content, offset, size) == Content(content[Lesser(offset, |content|)..Lesser(offset + size, |content|)])
      <==>
        && !(content == [] && offset < 0xffff_ffff)
        && !(offset + 1 == |content| && size > 0)
        && !(offset + 1 < |content| && offset + size >= 0x1_0000_0000)
  {
    ReadMissesOnlyLastByte(content, offset, size);
  }

  /** Sizes fit the C `int` they are read into: a well-formed file is never as long as the device. */
  lemma SizesFitInt(v: Volume, reserved: seq<bool>, chains: seq<Chain>, slot: nat)
    requires WellFormed(v, reserved, chains) && LiveFile(v, slot)
    ensures v.table[slot].fileSize <= |v.data| < 0x8000_0000
  {
    ChainInBounds(v, reserved, chains, slot);
    DisjointDistinct(chains, slot);
    DifferentBelow(chains[slot], |v.links|);
  }

  // ---------- every effect keeps the invariant ----------

  lemma CopiedKeeps(v: Volume, reserved: seq<bool>, chains: seq<Chain>, w: Volume, ch: Chain, offset: nat, buffer: seq<byte>, n: nat)
    requires WellFormed(v, reserved, chains) && Copied(v, w, ch, offset, buffer, n)
    ensures WellFormed(w, reserved, chains)
  {
    hide Disjoint, Exact, ChainOk, Copied;
    CopiedSameMaps(v, w, ch, offset, buffer, n);
  }

  lemma GrowEffectKeeps(v: Volume, reserved: seq<bool>, chains: seq<Chain>, slot: nat, size: uint32, room: bool, ok: bool,
                        w: Volume, chains': seq<Chain>)
    requires WellFormed(v, reserved, chains) && LiveFile(v, slot) && v.table[slot].fileSize < size
    requires GrowEffect(v, chains, slot, size, room, ok, w, chains')
    requires room ==> |chains[slot] + NewBlocks(v, chains[slot], size)| == BlocksFor(size)
    ensures WellFormed(w, reserved, chains')
  {
    hide WellFormed, Undone, Grown, NewBlocks, BlocksFor, Growing;
    if ok {
      IsGrowing(v, reserved, chains, slot, size);
      GrownKeeps(v, reserved, chains, slot, size);
    } else {
      UndoneKeeps(v, reserved, chains, w, chains[slot], size);
    }
  }

  /** A write leaves a well-formed volume, whether or not it finds room. */
  lemma WriteKeeps(v: Volume, reserved: seq<bool>, chains: seq<Chain>, slot: nat, offset: nat, buffer: seq<byte>, code: Code,
                   u: Volume, w: Volume, chains': seq<Chain>)
    requires WellFormed(v, reserved, chains) && WriteEffect(v, chains, slot, offset, buffer, code, u, w, chains')
    ensures WellFormed(u, reserved, chains') && WellFormed(w, reserved, chains')
  {
    hide WellFormed, Undone, Grown, NewBlocks, RoomFor, BlocksFor, Copied;
    if offset + |buffer| > v.table[slot].fileSize {
      WriteRoom(v, reserved, chains, slot, offset + |buffer|);
      GrowEffectKeeps(v, reserved, chains, slot, offset + |buffer|, RoomFor(v, chains[slot], offset + |buffer|), code == Sexe, u, chains');
    }
    if code == Sexe { CopiedKeeps(u, reserved, chains', w, chains'[slot], offset, buffer, |buffer|); }
  }

  lemma WriteRoom(v: Volume, reserved: seq<bool>, chains: seq<Chain>, slot: nat, size: nat)
    requires WellFormed(v, reserved, chains) && slot < |chains|
    ensures RoomFor(v, chains[slot], size) ==> |chains[slot] + NewBlocks(v, chains[slot], size)| == BlocksFor(size)
  {
    if RoomFor(v, chains[slot], size) { RoomIsEnough(v, chains[slot], size); }
  }

  lemma TruncateRoomIsEnough(v: Volume, ch: Chain, size: nat)
    requires |v.bits| < END_OF_FILE && TruncateRoom(v, ch, size)
    ensures |ch + NewBlocks(v, ch, size)| == BlocksFor(size)
  {
    FirstFitCount(v.bits, 0, BlocksFor(size) - |ch|);
    CountSplit(v.bits, 0);
  }

  /** So does a truncate. */
  lemma TruncateKeeps(v: Volume, reserved: seq<bool>, chains: seq<Chain>, slot: nat, size: uint32, code: Code, w: Volume, chains': seq<Chain>)
    requires WellFormed(v, reserved, chains) && TruncateEffect(v, chains, slot, size, code, w, chains')
    ensures WellFormed(w, reserved, chains')
  {
    var ch := chains[slot];
    if size > v.table[slot].fileSize && BlocksFor(size) > |ch| {
      if TruncateRoom(v, ch, size) { TruncateRoomIsEnough(v, ch, size); }
      TruncateGrowKeeps(v, reserved, chains, slot, size, code, w, chains');
    } else if size < v.table[slot].fileSize && BlocksFor(size) < |ch| {
      ShrinkKeeps(v, reserved, chains, slot, size);
    } else {
      ResizeKeepsAll(v, reserved, chains, slot, size);
    }
  }

  lemma TruncateGrowKeeps(v: Volume, reserved: seq<bool>, chains: seq<Chain>, slot: nat, size: uint32, code: Code, w: Volume, chains': seq<Chain>)
    requires WellFormed(v, reserved, chains) && LiveFile(v, slot) && v.table[slot].fileSize < size && slot < |chains|
    requires GrowEffect(v, chains, slot, size, TruncateRoom(v, chains[slot], size), code == Sexe, w, chains')
    ensures WellFormed(w, reserved, chains')
  {
    hide WellFormed, Undone, Grown, NewBlocks, BlocksFor, TruncateRoom;
    if TruncateRoom(v, chains[slot], size) { TruncateRoomIsEnough(v, chains[slot], size); }
    GrowEffectKeeps(v, reserved, chains, slot, size, TruncateRoom(v, chains[slot], size), code == Sexe, w, chains');
  }

  lemma ShrinkKeeps(v: Volume, reserved: seq<bool>, chains: seq<Chain>, slot: nat, size: uint32)
    requires WellFormed(v, reserved, chains) && LiveFile(v, slot) && BlocksFor(size) <= |chains[slot]|
    ensures WellFormed(Cut(Resize(v, slot, size), slot, chains[slot], BlocksFor(size)), reserved, chains[slot := chains[slot][..BlocksFor(size)]])
  {
    ResizeKeeps(v, reserved, chains, slot, size);
    hide Separated, BlocksFor;
    CutKeeps(Resize(v, slot, size), reserved, chains, slot, BlocksFor(size));
  }

  lemma ResizeKeepsAll(v: Volume, reserved: seq<bool>, chains: seq<Chain>, slot: nat, size: uint32)
    requires WellFormed(v, reserved, chains) && LiveFile(v, slot) && BlocksFor(size) == |chains[slot]|
    ensures WellFormed(Resize(v, slot, size), reserved, chains)
  {
    ResizeKeeps(v, reserved, chains, slot, size);
  }

  /** So does an unlink, which returns every block of the file. */
  lemma UnlinkKeeps(v: Volume, reserved: seq<bool>, chains: seq<Chain>, slot: nat, w: Volume, chains': seq<Chain>)
    requires WellFormed(v, reserved, chains) && UnlinkEffect(v, chains, slot, w, chains')
    ensures WellFormed(w, reserved, chains')
  {
    var u := Cut(v, slot, chains[slot], 0);
    CutKeeps(v, reserved, chains, slot, 0);
    assert chains[slot][..0] == [];
    forall s | 0 <= s < |chains'| ensures ChainOk(w.table[s], w.links, chains'[s]) {
      assert ChainOk(u.table[s], u.links, chains'[s]);
    }
  }

  // ---------- what the effects mean for the files ----------

  lemma ChainsInData(v: Volume, reserved: seq<bool>, chains: seq<Chain>)
    requires Separated(v, reserved, chains)
    ensures InData(chains, v.data) && Disjoint(chains)
  {
    forall s, i | 0 <= s < |chains| && 0 <= i < |chains[s]| ensures BLOCK_SIZE * chains[s][i] + BLOCK_SIZE <= |v.data| {
      assert ChainOk(v.table[s], v.links, chains[s]);
    }
  }

  lemma BytesSame(v: Volume, chains: seq<Chain>, w: Volume, chains': seq<Chain>, reserved: seq<bool>, t: nat)
    requires WellFormed(v, reserved, chains) && WellFormed(w, reserved, chains') && LiveFile(v, t) && LiveFile(w, t)
    requires chains[t] == chains'[t] && v.table[t].fileSize == w.table[t].fileSize && v.data == w.data
    ensures FileBytes(v, reserved, chains, t) == FileBytes(w, reserved, chains', t)
  {
  }

  /** Every file but the one at `slot` has the same content in both volumes. */
  ghost predicate OthersSame(v: Volume, chains: seq<Chain>, w: Volume, chains': seq<Chain>, reserved: seq<bool>, slot: int)
    requires WellFormed(v, reserved, chains) && WellFormed(w, reserved, chains')
  {
    && |w.table| == |v.table|
    && (forall t :: 0 <= t < |v.table| && t != slot ==> (LiveFile(v, t) <==> LiveFile(w, t)))
    && (forall t :: t != slot && LiveFile(v, t) && LiveFile(w, t) ==> FileBytes(w, reserved, chains', t) == FileBytes(v, reserved, chains, t))
  }

  /** The blocks of every other file stay in place. */
  ghost predicate OthersInPlace(v: Volume, chains: seq<Chain>, w: Volume, chains': seq<Chain>, slot: int) {
    && |w.table| == |v.table| == |chains| == |chains'|
    && (forall t :: 0 <= t < |v.table| && t != slot ==> w.table[t] == v.table[t] && chains'[t] == chains[t])
  }

  lemma InPlaceSame(v: Volume, chains: seq<Chain>, w: Volume, chains': seq<Chain>, reserved: seq<bool>, slot: int)
    requires WellFormed(v, reserved, chains) && WellFormed(w, reserved, chains')
    requires OthersInPlace(v, chains, w, chains', slot) && w.data == v.data
    ensures OthersSame(v, chains, w, chains', reserved, slot)
  {
    hide WellFormed, FileBytes;
    forall t | t != slot && LiveFile(v, t) && LiveFile(w, t)
      ensures FileBytes(w, reserved, chains', t) == FileBytes(v, reserved, chains, t) {
      BytesSame(v, chains, w, chains', reserved, t);
    }
  }

  lemma GrownInPlace(v: Volume, slot: nat, chains: seq<Chain>, size: uint32)
    requires slot < |chains| == |v.table| && Growable(v, slot, chains[slot], size)
    ensures var w := Grown(v, slot, chains[slot], size);
      OthersInPlace(v, chains, w, chains[slot := chains[slot] + NewBlocks(v, chains[slot], size)], slot) && w.data == v.data
        && w.table[slot].state == v.table[slot].state && w.table[slot].fileSize == size
  {
    AppendAllTable(Resize(v, slot, size), slot, chains[slot], NewBlocks(v, chains[slot], size));
    AppendAllBits(Resize(v, slot, size), slot, chains[slot], NewBlocks(v, chains[slot], size));
  }

  /** A growth, done or undone, moves no byte. */
  lemma GrowInPlace(v: Volume, chains: seq<Chain>, slot: nat, size: uint32, room: bool, ok: bool, w: Volume, chains': seq<Chain>)
    requires |chains| == |v.table| && GrowEffect(v, chains, slot, size, room, ok, w, chains')
    ensures OthersInPlace(v, chains, w, chains', slot) && w.data == v.data
    ensures w.table[slot].state == v.table[slot].state
    ensures w.table[slot].fileSize == if ok then size else v.table[slot].fileSize
    ensures chains[slot] <= chains'[slot] && (!ok ==> chains' == chains)
  {
    hide Grown, Undone, NewBlocks;
    if ok { GrownInPlace(v, slot, chains, size); } else { UndoneTable(v, w, NewBlocks(v, chains[slot], size)); }
  }

  lemma UndoneTable(v: Volume, w: Volume, blocks: Chain)
    requires Undone(v, w, blocks)
    ensures w.table == v.table && w.data == v.data
  {
  }

  lemma CopySpares(v: Volume, reserved: seq<bool>, chains: seq<Chain>, w: Volume, slot: nat, offset: nat, buffer: seq<byte>)
    requires WellFormed(v, reserved, chains) && WellFormed(w, reserved, chains) && slot < |chains|
    requires Copied(v, w, chains[slot], offset, buffer, |buffer|)
    ensures OthersSame(v, chains, w, chains, reserved, slot)
  {
    ChainsInData(v, reserved, chains);
    assert buffer[..|buffer|] == buffer;
    forall t | t != slot && LiveFile(v, t) && LiveFile(w, t)
      ensures FileBytes(w, reserved, chains, t) == FileBytes(v, reserved, chains, t) {
      ChainInBounds(v, reserved, chains, t);
      PatchSpares(chains, v.data, w.data, slot, offset, buffer, t, v.table[t].fileSize);
    }
  }

  lemma CopyOverwrites(v: Volume, chains: seq<Chain>, u: Volume, w: Volume, chains': seq<Chain>, reserved: seq<bool>,
                       slot: nat, offset: nat, buffer: seq<byte>)
    requires WellFormed(v, reserved, chains) && WellFormed(u, reserved, chains') && WellFormed(w, reserved, chains')
    requires LiveFile(v, slot) && LiveFile(u, slot) && LiveFile(w, slot) && u.data == v.data && chains[slot] <= chains'[slot]
    requires u.table[slot].fileSize == if offset + |buffer| > v.table[slot].fileSize then offset + |buffer| else v.table[slot].fileSize
    requires Copied(u, w, chains'[slot], offset, buffer, |buffer|)
    ensures Overwritten(FileBytes(v, reserved, chains, slot), FileBytes(w, reserved, chains', slot), offset, buffer)
  {
    ChainsInData(u, reserved, chains');
    assert buffer[..|buffer|] == buffer;
    PatchOverwrites(chains', u.data, w.data, slot, offset, buffer, chains[slot], v.table[slot].fileSize);
  }

  lemma WriteInPlace(v: Volume, chains: seq<Chain>, slot: nat, offset: nat, buffer: seq<byte>, code: Code,
                     u: Volume, w: Volume, chains': seq<Chain>)
    requires WriteEffect(v, chains, slot, offset, buffer, code, u, w, chains')
    ensures OthersInPlace(v, chains, u, chains', slot) && u.data == v.data
    ensures LiveFile(u, slot) && chains[slot] <= chains'[slot]
    ensures code == Sexe ==>
      u.table[slot].fileSize == if offset + |buffer| > v.table[slot].fileSize then offset + |buffer| else v.table[slot].fileSize
    ensures code != Sexe ==> chains' == chains && u.table == v.table && u.bits == v.bits
  {
    hide Grown, NewBlocks, RoomFor, Copied, Growable;
    if offset + |buffer| > v.table[slot].fileSize {
      GrowInPlace(v, chains, slot, offset + |buffer|, RoomFor(v, chains[slot], offset + |buffer|), code == Sexe, u, chains');
    }
  }

  lemma SameThenSame(v: Volume, chains: seq<Chain>, u: Volume, w: Volume, chains': seq<Chain>, reserved: seq<bool>, slot: int)
    requires WellFormed(v, reserved, chains) && WellFormed(u, reserved, chains') && WellFormed(w, reserved, chains')
    requires OthersSame(v, chains, u, chains', reserved, slot) && OthersSame(u, chains', w, chains', reserved, slot)
    ensures OthersSame(v, chains, w, chains', reserved, slot)
  {
    hide WellFormed, FileBytes;
  }

  /** On success the file reads as before with the buffer laid over it; without room it is untouched.
      The other files are untouched in either case. */
  lemma WriteMeans(v: Volume, reserved: seq<bool>, chains: seq<Chain>, slot: nat, offset: nat, buffer: seq<byte>, code: Code,
                   u: Volume, w: Volume, chains': seq<Chain>)
    requires WellFormed(v, reserved, chains) && WriteEffect(v, chains, slot, offset, buffer, code, u, w, chains')
    ensures WellFormed(w, reserved, chains') && LiveFile(w, slot) && OthersSame(v, chains, w, chains', reserved, slot)
    ensures code == Sexe ==>
      Overwritten(FileBytes(v, reserved, chains, slot), FileBytes(w, reserved, chains', slot), offset, buffer)
    ensures code == ENoSpc ==>
      chains' == chains && w.bits == v.bits && w.table == v.table && FileBytes(w, reserved, chains', slot) == FileBytes(v, reserved, chains, slot)
  {
    hide FileBytes, Grown, NewBlocks, RoomFor, Growable, WellFormed, Overwritten, Copied, OthersSame, GrowEffect;
    WriteKeeps(v, reserved, chains, slot, offset, buffer, code, u, w, chains');
    WriteInPlace(v, chains, slot, offset, buffer, code, u, w, chains');
    InPlaceSame(v, chains, u, chains', reserved, slot);
    if code == Sexe {
      CopiedSameMaps(u, w, chains'[slot], offset, buffer, |buffer|);
      CopySpares(u, reserved, chains', w, slot, offset, buffer);
      CopyOverwrites(v, chains, u, w, chains', reserved, slot, offset, buffer);
      SameThenSame(v, chains, u, w, chains', reserved, slot);
    } else {
      BytesSame(v, chains, w, chains', reserved, slot);
    }
  }

  /** `after` is `before` cut or prolonged to `size` bytes; the bytes added are unspecified. */
  ghost predicate Retained(before: seq<byte>, after: seq<byte>, size: nat) {
    |after| == size && (if size <= |before| then after == before[..size] else before <= after)
  }

  lemma BytesRetained(v: Volume, chains: seq<Chain>, w: Volume, chains': seq<Chain>, reserved: seq<bool>, slot: nat)
    requires WellFormed(v, reserved, chains) && WellFormed(w, reserved, chains') && LiveFile(v, slot) && LiveFile(w, slot)
    requires v.data == w.data && (chains[slot] <= chains'[slot] || chains'[slot] <= chains[slot])
    ensures Retained(FileBytes(v, reserved, chains, slot), FileBytes(w, reserved, chains', slot), w.table[slot].fileSize)
  {
    ChainInBounds(v, reserved, chains, slot);
    ChainInBounds(w, reserved, chains', slot);
  }

  /** Truncate keeps the bytes the new size leaves room for; without room nothing changes. */
  lemma TruncateMeans(v: Volume, reserved: seq<bool>, chains: seq<Chain>, slot: nat, size: uint32, code: Code, w: Volume, chains': seq<Chain>)
    requires WellFormed(v, reserved, chains) && TruncateEffect(v, chains, slot, size, code, w, chains')
    ensures WellFormed(w, reserved, chains') && LiveFile(w, slot) && OthersSame(v, chains, w, chains', reserved, slot)
    ensures code == Sexe ==> Retained(FileBytes(v, reserved, chains, slot), FileBytes(w, reserved, chains', slot), size)
    ensures code == ENoSpc ==>
      chains' == chains && w.bits == v.bits && w.table == v.table && FileBytes(w, reserved, chains', slot) == FileBytes(v, reserved, chains, slot)
  {
    hide FileBytes, Grown, NewBlocks, TruncateRoom, Growable, WellFormed, Retained, OthersSame, TruncateEffect;
    TruncateKeeps(v, reserved, chains, slot, size, code, w, chains');
    TruncateInPlace(v, chains, slot, size, code, w, chains');
    InPlaceSame(v, chains, w, chains', reserved, slot);
    if code == Sexe {
      BytesRetained(v, chains, w, chains', reserved, slot);
    } else {
      BytesSame(v, chains, w, chains', reserved, slot);
    }
  }

  lemma TruncateInPlace(v: Volume, chains: seq<Chain>, slot: nat, size: uint32, code: Code, w: Volume, chains': seq<Chain>)
    requires TruncateEffect(v, chains, slot, size, code, w, chains')
    ensures OthersInPlace(v, chains, w, chains', slot) && w.data == v.data && LiveFile(w, slot)
    ensures LiveFile(v, slot) && |chains| == |v.table| && code in {Sexe, ENoSpc}
    ensures (chains[slot] <= chains'[slot] || chains'[slot] <= chains[slot])
    ensures code == Sexe ==> w.table[slot].fileSize == size
    ensures code != Sexe ==> chains' == chains && w.table == v.table && w.bits == v.bits
  {
    hide Grown, NewBlocks, TruncateRoom, Growable;
    if size > v.table[slot].fileSize && BlocksFor(size) > |chains[slot]| {
      GrowInPlace(v, chains, slot, size, TruncateRoom(v, chains[slot], size), code == Sexe, w, chains');
    }
  }

  /** Unlink removes the file and no other, and returns its blocks. */
  lemma UnlinkMeans(v: Volume, reserved: seq<bool>, chains: seq<Chain>, slot: nat, w: Volume, chains': seq<Chain>)
    requires WellFormed(v, reserved, chains) && UnlinkEffect(v, chains, slot, w, chains')
    ensures WellFormed(w, reserved, chains') && !LiveFile(w, slot) && OthersSame(v, chains, w, chains', reserved, slot)
    ensures forall b :: 0 <= b < |v.bits| ==> (w.bits[b] <==> v.bits[b] && b !in chains[slot])
  {
    UnlinkKeeps(v, reserved, chains, slot, w, chains');
    hide WellFormed, FileBytes, OthersSame;
    InPlaceSame(v, chains, w, chains', reserved, slot);
  }

  // ---------- when there is room ----------

  /** The free blocks before the last one of the device. */
  function FreeButLast(bits: seq<bool>): nat {
    if bits == [] then 0 else CountFree(bits, 0, |bits| - 1)
  }

  function Missing(v: Volume, slot: nat, size: nat): int
    requires slot < |v.table|
  {
    BlocksFor(size) - BlocksFor(v.table[slot].fileSize)
  }

  /** Room to enlarge the file to `size` bytes by a write: no more blocks are missing than are free before the
      last one of the device; the last one helps only an empty file that needs no other. */
  predicate WriteFits(v: Volume, slot: nat, size: nat)
    requires slot < |v.table|
  {
    || size <= v.table[slot].fileSize || Missing(v, slot, size) <= FreeButLast(v.bits)
    || (v.table[slot].fileSize == 0 && Missing(v, slot, size) == 1 && CountFree(v.bits, 0, |v.bits|) == 1)
  }

  /** Room to enlarge it by a truncate, which never takes the last block at all. */
  predicate TruncateFits(v: Volume, slot: nat, size: nat)
    requires slot < |v.table|
  {
    size <= v.table[slot].fileSize || Missing(v, slot, size) <= FreeButLast(v.bits)
  }

  /** A write succeeds exactly when there is that room. */
  lemma WriteFindsRoomIff(v: Volume, reserved: seq<bool>, chains: seq<Chain>, slot: nat, offset: nat, buffer: seq<byte>, code: Code,
                          u: Volume, w: Volume, chains': seq<Chain>)
    requires WellFormed(v, reserved, chains) && WriteEffect(v, chains, slot, offset, buffer, code, u, w, chains')
    ensures code == Sexe <==> WriteFits(v, slot, offset + |buffer|)
  {
    hide Separated, Copied, CountFree, Grown, Undone, NewBlocks, RoomFor, BlocksFor, Growable;
    if offset + |buffer| > v.table[slot].fileSize { RoomCounts(v, chains, slot, offset + |buffer|); }
  }

  lemma RoomCounts(v: Volume, chains: seq<Chain>, slot: nat, size: nat)
    requires LiveFile(v, slot) && |chains| == |v.table| && |chains[slot]| == BlocksFor(v.table[slot].fileSize) && size > v.table[slot].fileSize
    ensures RoomFor(v, chains[slot], size) <==> WriteFits(v, slot, size)
  {
    if v.bits != [] { CountSplit(v.bits, 0); }
  }

  /** So does a truncate. */
  lemma TruncateFindsRoomIff(v: Volume, reserved: seq<bool>, chains: seq<Chain>, slot: nat, size: uint32, code: Code, w: Volume, chains': seq<Chain>)
    requires WellFormed(v, reserved, chains) && TruncateEffect(v, chains, slot, size, code, w, chains')
    ensures code == Sexe <==> TruncateFits(v, slot, size)
  {
    hide Separated, CountFree, Cut, Grown, Undone, NewBlocks, Growable;
  }
}
