/** The OSADA block store, changed in place through walking pointers. */
module Stores {
  import opened Osada
  import opened Words
  import opened Volumes
  import opened Allocation
  import opened Contents
  import opened Growth
  import opened Release
  import opened Effects

  /** Every method is tied to a function of the volume; `chains` and `reserved` are ghost. */
  class Store {
    const table: array<Node>
    const links: array<uint32>
    const bits: array<bool>
    const data: array<byte>
    ghost const reserved: seq<bool>
    ghost var chains: seq<Chain>

    /** The areas of a mapped image. */
    constructor (table: array<Node>, links: array<uint32>, bits: array<bool>, data: array<byte>,
                 ghost reserved: seq<bool>, ghost chains: seq<Chain>)
      requires (links as object) != (data as object)
      requires WellFormed(Volume(table[..], links[..], bits[..], data[..]), reserved, chains)
      ensures Valid() && Snapshot() == Volume(table[..], links[..], bits[..], data[..])
      ensures this.table == table && this.links == links && this.bits == bits && this.data == data
      ensures this.reserved == reserved && this.chains == chains
    {
      this.table, this.links, this.bits, this.data := table, links, bits, data;
      this.reserved, this.chains := reserved, chains;
    }

    /** The four areas as values. */
    function Snapshot(): (v: Volume)
      reads table, links, bits, data
      ensures |v.table| == table.Length && |v.links| == links.Length && |v.bits| == bits.Length && |v.data| == data.Length
    {
      Volume(table[..], links[..], bits[..], data[..])
    }

    /** The areas do not overlap, and the device stays below 2 GiB. */
    predicate Areas() {
      && (links as object) != (data as object)
      && links.Length == bits.Length < 0x200_0000
      && data.Length == BLOCK_SIZE * links.Length
    }

    ghost predicate Valid()
      reads this, table, links, bits, data
    {
      Areas() && |chains| == table.Length && WellFormed(Snapshot(), reserved, chains)
    }

    // ---------- single cells ----------

    function NodeAt(slot: nat): (n: Node)
      requires slot < table.Length
      reads table, links, bits, data
      ensures n == Snapshot().table[slot]
    {
      table[slot]
    }

    function Busy(b: nat): (r: bool)
      requires b < bits.Length
      reads table, links, bits, data
      ensures r == Snapshot().bits[b]
    {
      bits[b]
    }

    function Get(slot: nat, c: Cursor): (p: uint32)
      requires slot < table.Length && (c.InMap? ==> c.cell < links.Length)
      reads table, links, bits, data
      ensures p == Deref(Snapshot(), slot, c)
    {
      match c
      case InNode => table[slot].firstBlock
      case InMap(b) => links[b]
    }

    method Put(slot: nat, c: Cursor, p: uint32)
      requires Areas() && slot < table.Length && (c.InMap? ==> c.cell < links.Length)
      modifies table, links
      ensures Snapshot() == Assign(old(Snapshot()), slot, c, p)
    {
      match c
      case InNode => table[slot] := table[slot].(firstBlock := p);
      case InMap(b) => links[b] := p;
    }

    method Mark(b: nat, busy: bool)
      requires b < bits.Length
      modifies bits
      ensures Snapshot() == old(Snapshot()).(bits := old(Snapshot()).bits[b := busy])
    {
      bits[b] := busy;
    }

    method SetNode(slot: nat, node: Node)
      requires slot < table.Length
      modifies table
      ensures Snapshot() == old(Snapshot()).(table := old(Snapshot()).table[slot := node])
    {
      table[slot] := node;
    }

    method SetSize(slot: nat, size: uint32)
      requires slot < table.Length
      modifies table
      ensures Snapshot() == Resize(old(Snapshot()), slot, size)
    {
      SetNode(slot, NodeAt(slot).(fileSize := size));
    }

    /** One hit of the allocation scan: mark the block, hang it at the cursor, end the chain there. */
    method Take(slot: nat, c: Cursor, b: uint32, ghost ch: Chain)
      requires Areas() && slot < table.Length && b < links.Length
      requires InBounds(ch, links.Length) && c == CursorAt(ch, |ch|)
      modifies table, links, bits
      ensures Snapshot() == Append(old(Snapshot()), slot, ch, b)
    {
      hide Snapshot;
      Mark(b, true);
      Put(slot, c, b);
      Put(slot, InMap(b), END_OF_FILE);
    }

    /** The next hit of a scan that has taken `taken` since the volume was `v`. */
    method TakeNext(slot: nat, c: Cursor, b: uint32, ghost v: Volume, ghost ch: Chain, ghost taken: Chain)
      requires Areas() && slot < table.Length == |v.table| && |v.links| == |v.bits| == links.Length && b < links.Length
      requires InBounds(ch, |v.links|) && InBounds(taken, |v.links|)
      requires c == CursorAt(ch + taken, |ch + taken|)
      requires Snapshot() == AppendAll(v, slot, ch, taken)
      modifies table, links, bits
      ensures Snapshot() == AppendAll(v, slot, ch, taken + [b])
      ensures Snapshot().bits == old(Snapshot()).bits[b := true]
    {
      hide Snapshot, AppendAll;
      Take(slot, c, b, ch + taken);
      AppendAllSnoc(v, slot, ch, taken, b);
    }

    // ---------- sections run under m_lock ----------

    /** Gives an empty file its first block. */
    method AssignFirstBlock(slot: nat) returns (found: bool)
      requires Areas() && slot < table.Length
      modifies table, links, bits
      ensures found <==> Wanted(old(Snapshot()), 1) != []
      ensures Snapshot() == Extended(old(Snapshot()), slot, [], 1)
    {
      hide Snapshot;
      ghost var v := Snapshot();
      var freeDb := 0;
      while freeDb < bits.Length
        invariant 0 <= freeDb <= bits.Length
        invariant Snapshot() == v && FirstFit(v.bits, 0, 1) == FirstFit(v.bits, freeDb, 1)
      {
        if !Busy(freeDb) {
          assert Wanted(v, 1) == [] + [freeDb] by { assert FirstFit(v.bits, freeDb + 1, 0) == []; }
          Take(slot, InNode, freeDb, []);
          AppendAllSnoc(v, slot, [], [], freeDb);
          return true;
        }
        freeDb := freeDb + 1;
      }
      return false;
    }

    /** The extension scan. `osada_write` counts the bytes still missing in steps of a block,
        `osada_truncate` counts blocks. */
    method Extend(slot: nat, start: Cursor, amount: int, step: int, ghost ch: Chain) returns (stop: nat)
      requires Areas() && slot < table.Length && (step == 1 || step == BLOCK_SIZE)
      requires InBounds(ch, links.Length) && start == CursorAt(ch, |ch|)
      modifies table, links, bits
      ensures stop == ScanStop(old(Snapshot()).bits, 0, Units(amount, step))
      ensures Snapshot() == Extended(old(Snapshot()), slot, ch, Units(amount, step))
    {
      hide Snapshot, AppendAll, FirstFit, ScanStop, ScanAt, Units;
      ghost var v := Snapshot();
      ghost var need := Units(amount, step);
      ghost var taken: Chain := [];
      ScanStart(v, slot, ch, need);
      var c, missing, freeDb := start, amount, 0;
      assert ch + taken == ch;
      while missing > 0 && freeDb < bits.Length
        invariant 0 <= freeDb <= bits.Length
        invariant InBounds(taken, links.Length) && ScanAt(v.bits, need, taken, freeDb, Units(missing, step))
        invariant c == CursorAt(ch + taken, |ch + taken|)
        invariant forall x :: freeDb <= x < bits.Length ==> Snapshot().bits[x] == v.bits[x]
        invariant Snapshot() == AppendAll(v, slot, ch, taken)
      {
        UnitsLess(missing, step);
        ScanStep(v.bits, need, taken, freeDb, Units(missing, step));
        if !Busy(freeDb) {
          TakeNext(slot, c, freeDb, v, ch, taken);
          taken := taken + [freeDb];
          c := InMap(freeDb);
          missing := missing - step;
        }
        freeDb := freeDb + 1;
      }
      UnitsNone(missing, step);
      ScanEnd(v.bits, need, taken, freeDb, Units(missing, step));
      return freeDb;
    }

    /** One round of the release loop: clears the bit of the block the cursor points to, ends the chain
        there and moves on to that block's own cell. */
    method ReleaseOne(slot: nat, c: Cursor, ghost v: Volume, ghost ch: Chain, ghost keep: nat, ghost upto: nat) returns (next: Cursor)
      requires Areas() && slot < table.Length == |v.table| && |v.links| == |v.bits| == links.Length
      requires InBounds(ch, |v.links|) && keep <= upto < |ch| && c == CursorAt(ch, upto)
      requires Snapshot() == CutTo(v, slot, ch, keep, upto) && Deref(Snapshot(), slot, c) == ch[upto]
      modifies table, links, bits
      ensures Snapshot() == CutTo(v, slot, ch, keep, upto + 1) && next == CursorAt(ch, upto + 1)
    {
      hide Snapshot;
      var aux := Get(slot, c);
      Mark(aux, false);
      Put(slot, c, END_OF_FILE);
      next := InMap(aux);
    }

    /** Frees the chain from position `keep` on, where the cursor stands. */
    method ReleaseFrom(slot: nat, start: Cursor, ghost v: Volume, ghost ch: Chain, ghost keep: nat)
      requires Areas() && v == Snapshot() && slot < table.Length
      requires InBounds(ch, |v.links|) && Distinct(ch) && keep <= |ch| && start == CursorAt(ch, keep)
      requires Linked(v.table[slot].firstBlock, v.links, ch)
      modifies table, links, bits
      ensures Snapshot() == Cut(v, slot, ch, keep)
    {
      assert v == CutTo(v, slot, ch, keep, keep);
      hide Snapshot, CutTo, Cut, Distinct, Linked;
      ghost var upto := keep;
      var c := start;
      CutToAhead(v, slot, ch, keep, upto);
      while Get(slot, c) != END_OF_FILE
        invariant keep <= upto <= |ch| && c == CursorAt(ch, upto)
        invariant Snapshot() == CutTo(v, slot, ch, keep, upto)
        invariant Deref(Snapshot(), slot, c) == At(ch, upto)
        decreases |ch| - upto
      {
        c := ReleaseOne(slot, c, v, ch, keep, upto);
        upto := upto + 1;
        CutToAhead(v, slot, ch, keep, upto);
      }
      CutToIsCut(v, slot, ch, keep);
    }

    // ---------- walks ----------

    /** Follows `n` pointers from the node. */
    method Walk(slot: nat, n: nat, ghost ch: Chain) returns (c: Cursor)
      requires Areas() && slot < table.Length && n <= |ch|
      requires InBounds(ch, links.Length) && Linked(Snapshot().table[slot].firstBlock, Snapshot().links, ch)
      ensures c == CursorAt(ch, n)
    {
      hide Snapshot;
      c := InNode;
      var i := n;
      while i > 0
        invariant 0 <= i <= n && c == CursorAt(ch, n - i)
      {
        c := InMap(Get(slot, c));
        i := i - 1;
      }
    }

    /** Follows the pointers from position `from` to the one holding END_OF_FILE. */
    method WalkToEnd(slot: nat, start: Cursor, ghost ch: Chain, ghost from: nat) returns (c: Cursor, movs: nat)
      requires Areas() && slot < table.Length && from <= |ch| && start == CursorAt(ch, from)
      requires InBounds(ch, links.Length) && Linked(Snapshot().table[slot].firstBlock, Snapshot().links, ch)
      ensures c == CursorAt(ch, |ch|) && movs == |ch| - from
    {
      hide Snapshot;
      c, movs := start, 0;
      while Get(slot, c) != END_OF_FILE
        invariant movs <= |ch| - from && c == CursorAt(ch, from + movs)
        decreases |ch| - from - movs
      {
        c := InMap(Get(slot, c));
        movs := movs + 1;
      }
    }

    // ---------- growing ----------

    /** Records the new size and, for an empty file, takes its first block. */
    method StartGrowth(slot: nat, newSize: uint32, ghost v: Volume) returns (ok: bool)
      requires Areas() && v == Snapshot() && Growing(v, reserved, chains, slot, newSize)
      modifies table, links, bits
      ensures ok <==> FirstFound(v, chains[slot])
      ensures Snapshot() == if ok then Started(v, slot, chains[slot], newSize) else v
    {
      ChainInBounds(v, reserved, chains, slot);
      assert Resize(Resize(v, slot, newSize), slot, v.table[slot].fileSize) == v;
      hide Snapshot, WellFormed, Separated, Growing, InBounds, CountFree;
      var fsize := NodeAt(slot).fileSize;
      SetSize(slot, newSize);
      if NodeAt(slot).firstBlock == END_OF_FILE {
        FirstBlockIsFound(v);
        var found := AssignFirstBlock(slot);
        if !found {
          SetSize(slot, fsize);
          return false;
        }
      }
      return true;
    }

    /** Finds the last block of a file whose growth has begun and scans for the blocks still missing. */
    method FinishGrowth(slot: nat, fsize: uint32, newSize: uint32, ghost v: Volume) returns (full: bool)
      requires Areas() && slot < table.Length
      requires Growing(v, reserved, chains, slot, newSize) && fsize == v.table[slot].fileSize
      requires FirstFound(v, chains[slot]) && Snapshot() == Started(v, slot, chains[slot], newSize)
      modifies table, links, bits
      ensures full <==> !RoomFor(v, chains[slot], newSize)
      ensures Snapshot() == Grown(v, slot, chains[slot], newSize)
    {
      ghost var first := StartChain(v, chains[slot]);
      hide Snapshot, WellFormed, Separated, AppendAll, FirstFit, CountFree, ScanStop, Started, Extended, Grown, Wanted,
        StartChain, RoomFor, FirstFound, NewBlocks, Growable, Growing, BlocksFor, Units, Linked, InBounds;
      BetweenSections(v, reserved, chains, slot, newSize, Snapshot());
      var c, movs := WalkToEnd(slot, InMap(NodeAt(slot).firstBlock), first, 1);
      var lastFreeByte := fsize - movs * BLOCK_SIZE;
      var available := BLOCK_SIZE - lastFreeByte;
      var stop := Extend(slot, c, newSize - fsize - available, BLOCK_SIZE, first);
      full := stop >= bits.Length;
    }

    /** Restores the old size and releases the blocks beyond it. */
    method UndoGrowth(slot: nat, fsize: uint32, ghost ch: Chain)
      requires Areas() && slot < table.Length && InBounds(ch, links.Length) && Distinct(ch)
      requires Linked(Snapshot().table[slot].firstBlock, Snapshot().links, ch) && BlocksFor(fsize) <= |ch|
      modifies table, links, bits
      ensures Snapshot() == Cut(Resize(old(Snapshot()), slot, fsize), slot, ch, BlocksFor(fsize))
    {
      hide Snapshot, Cut, Distinct, InBounds;
      SetSize(slot, fsize);
      var necessary := NecessaryBlocks(fsize);
      var c := Walk(slot, necessary, ch);
      ReleaseFrom(slot, c, Snapshot(), ch, necessary);
    }

    /** Enlarges the file, or reports that the device is full and leaves it as it was. */
    method Grow(slot: nat, newSize: uint32) returns (ok: bool)
      requires Valid() && LiveFile(Snapshot(), slot) && Snapshot().table[slot].fileSize < newSize < 0x8000_0000
      modifies this`chains, table, links, bits
      ensures Valid()
      ensures GrowEffect(old(Snapshot()), old(chains), slot, newSize, RoomFor(old(Snapshot()), old(chains[slot]), newSize), ok, Snapshot(), chains)
    {
      ghost var v, ch := Snapshot(), chains[slot];
      IsGrowing(v, reserved, chains, slot, newSize);
      hide Snapshot, Cut, Started, Grown, NewBlocks, RoomFor, FirstFound, Linked, Distinct, Undone, Separated, Sized,
        Resize, InBounds, Wanted;
      var fsize := NodeAt(slot).fileSize;
      ok := StartGrowth(slot, newSize, v);
      if !ok {
        NothingFound(v, ch, newSize);
        return;
      }
      var full := FinishGrowth(slot, fsize, newSize, v);
      if full {
        ok := false;
        GrownLinked(v, reserved, chains, slot, newSize);
        GrownUndone(v, reserved, chains, slot, newSize);
        UndoGrowth(slot, fsize, ch + NewBlocks(v, ch, newSize));
        UndoneKeeps(v, reserved, chains, Snapshot(), ch, newSize);
      } else {
        RoomIsEnough(v, ch, newSize);
        GrownKeeps(v, reserved, chains, slot, newSize);
        chains := chains[slot := ch + NewBlocks(v, ch, newSize)];
      }
    }

    // ---------- copying in ----------

    /** `memcpy` into the data area. */
    method CopyTo(at: nat, src: seq<byte>)
      requires Areas() && at + |src| <= data.Length
      modifies data
      ensures Snapshot() == CopiedData(old(Snapshot()), at, src)
    {
      ghost var before := data[..];
      forall k | 0 <= k < |src| { data[at + k] := src[k]; }
      assert data[..] == Splice(before, at, src);
    }

    /** Copies the next `n` bytes of a request, which do not cross a block boundary, and moves the cursor on. */
    method CopyPiece(slot: nat, c: Cursor, inBlock: nat, offset: nat, buffer: seq<byte>, buffPos: nat, n: nat,
                     ghost v: Volume, ghost ch: Chain, ghost i: nat) returns (next: Cursor)
      requires Areas() && slot < table.Length == |v.table| && |v.links| == links.Length
      requires InBounds(ch, links.Length) && Distinct(ch) && Linked(v.table[slot].firstBlock, v.links, ch)
      requires 0 < n && buffPos + n <= |buffer| && Fits(v.data, ch, offset + |buffer|)
      requires AtPiece(ch, i, inBlock, offset + buffPos) && inBlock + n <= BLOCK_SIZE && c == CursorAt(ch, i)
      requires Copied(v, Snapshot(), ch, offset, buffer, buffPos)
      modifies data
      ensures Copied(v, Snapshot(), ch, offset, buffer, buffPos + n)
      ensures next == CursorAt(ch, i + 1) && (next.InMap? ==> next.cell < links.Length) && (Get(slot, next) == END_OF_FILE <==> i + 1 == |ch|)
    {
      hide Snapshot, Copied, Linked, Distinct, InBounds, Fits, Splice, At;
      CursorReads(v, slot, ch, i);
      CursorReads(v, slot, ch, i + 1);
      CopiedSameMaps(v, Snapshot(), ch, offset, buffer, buffPos);
      CopiedMore(v, Snapshot(), ch, i, inBlock, offset, buffer, buffPos, n);
      CopiedSameMaps(v, CopiedData(Snapshot(), BLOCK_SIZE * ch[i] + inBlock, buffer[buffPos..buffPos + n]), ch, offset, buffer, buffPos + n);
      CopyTo(BLOCK_SIZE * Get(slot, c) + inBlock, buffer[buffPos..buffPos + n]);
      next := InMap(Get(slot, c));
    }

    /** Writes `buffer` over the bytes from `offset` on; the file is long enough. */
    method CopyIn(slot: nat, offset: nat, buffer: seq<byte>, ghost ch: Chain)
      requires Areas() && slot < table.Length && InBounds(ch, links.Length) && Distinct(ch) && |buffer| > 0
      requires Linked(Snapshot().table[slot].firstBlock, Snapshot().links, ch)
      requires Fits(Snapshot().data, ch, offset + |buffer|)
      modifies data
      ensures Copied(old(Snapshot()), Snapshot(), ch, offset, buffer, |buffer|)
    {
      hide Snapshot, Copied, Distinct, Fits, BlocksFor, Linked, At, Deref, InBounds, AtPiece;
      ghost var v := Snapshot();
      ghost var i: nat := offset / BLOCK_SIZE;
      CopiedNothing(v, ch, offset, buffer);
      var movs := offset / BLOCK_SIZE;
      var inBlock := offset - BLOCK_SIZE * movs;
      FirstPiece(ch, offset, |buffer|);
      var c := Walk(slot, movs, ch);
      var available := BLOCK_SIZE - inBlock;
      var left := |buffer|;
      var buffPos := 0;
      while left > 0
        invariant 0 <= buffPos <= |buffer| && left == |buffer| - buffPos
        invariant i <= |ch| && c == CursorAt(ch, i)
        invariant left > 0 ==> 0 <= inBlock < BLOCK_SIZE && AtPiece(ch, i, inBlock, offset + buffPos) && available == BLOCK_SIZE - inBlock
        invariant Copied(v, Snapshot(), ch, offset, buffer, buffPos)
      {
        var writing := if left >= available then available else left;
        PieceInChain(ch, i, inBlock, offset + buffPos, writing, offset + |buffer|);
        c := CopyPiece(slot, c, inBlock, offset, buffer, buffPos, writing, v, ch, i);
        left := left - writing;
        if Get(slot, c) == END_OF_FILE { break; }
        buffPos := buffPos + writing;
        i := i + 1;
        available := BLOCK_SIZE;
        inBlock := 0;
      }
    }

    // ---------- operations on a file whose slot is known ----------

    /** Grows the file if the range ends behind it, then copies the buffer in. A request without bytes is
        dropped while it is received. */
    method Write(slot: nat, offset: uint32, buffer: seq<byte>) returns (r: Code)
      requires Valid() && LiveFile(Snapshot(), slot) && offset + |buffer| < 0x8000_0000
      modifies this`chains, table, links, bits, data
      ensures Valid()
      ensures buffer == [] ==> r == NoReply && Snapshot() == old(Snapshot()) && chains == old(chains)
      ensures buffer != [] ==> exists u :: WriteEffect(old(Snapshot()), old(chains), slot, offset, buffer, r, u, Snapshot(), chains)
    {
      hide Snapshot, Separated, Sized, GrowEffect, Copied, RoomFor, Fits, InBounds, Linked, Distinct;
      if |buffer| == 0 { return NoReply; }
      ghost var v, before := Snapshot(), chains;
      var fsize := NodeAt(slot).fileSize;
      if offset + |buffer| > fsize {
        var ok := Grow(slot, offset + |buffer|);
        if !ok {
          assert WriteEffect(v, before, slot, offset, buffer, ENoSpc, Snapshot(), Snapshot(), chains);
          return ENoSpc;
        }
      }
      ghost var u := Snapshot();
      ReadyToCopy(v, before, slot, offset + |buffer|, u, reserved, chains);
      CopyIn(slot, offset, buffer, chains[slot]);
      CopiedSameMaps(u, Snapshot(), chains[slot], offset, buffer, |buffer|);
      CopiedKeeps(u, reserved, chains, Snapshot(), chains[slot], offset, buffer, |buffer|);
      assert WriteEffect(v, before, slot, offset, buffer, Sexe, u, Snapshot(), chains);
      return Sexe;
    }

    /** Adds the blocks a larger size asks for, or gives up at the end of the bitmap. */
    method TruncateUp(slot: nat, oldSize: uint32, newSize: uint32, missing: nat, end: Cursor, ghost v: Volume) returns (ok: bool)
      requires Areas() && |chains| == table.Length == |v.table| && WellFormed(v, reserved, chains) && LiveFile(v, slot)
      requires oldSize == v.table[slot].fileSize < newSize && |chains[slot]| < BlocksFor(newSize)
      requires missing == BlocksFor(newSize) - |chains[slot]|
      requires Snapshot() == Resize(v, slot, newSize) && end == CursorAt(chains[slot], |chains[slot]|)
      modifies this`chains, table, links, bits
      ensures Valid()
      ensures GrowEffect(v, old(chains), slot, newSize, TruncateRoom(v, old(chains[slot]), newSize), ok, Snapshot(), chains)
    {
      hide Snapshot, Separated, Sized, Grown, Extended, NewBlocks, Undone, TruncateRoom, Cut, ScanStop, Linked, Distinct;
      ghost var ch := chains[slot];
      IsGrowing(v, reserved, chains, slot, newSize);
      TruncateScan(v, slot, ch, newSize);
      var stop := Extend(slot, end, missing, 1, ch);
      ok := stop < bits.Length;
      if !ok {
        GrownLinked(v, reserved, chains, slot, newSize);
        GrownUndone(v, reserved, chains, slot, newSize);
        UndoGrowth(slot, oldSize, ch + NewBlocks(v, ch, newSize));
        UndoneKeeps(v, reserved, chains, Snapshot(), ch, newSize);
      } else {
        TruncateRoomIsEnough(v, ch, newSize);
        GrownKeeps(v, reserved, chains, slot, newSize);
        chains := chains[slot := ch + NewBlocks(v, ch, newSize)];
      }
    }

    /** Records the new size, and links the missing blocks or releases the surplus ones. */
    method Truncate(slot: nat, newSize: uint32) returns (r: Code)
      requires Valid() && LiveFile(Snapshot(), slot)
      modifies this`chains, table, links, bits
      ensures Valid()
      ensures TruncateEffect(old(Snapshot()), old(chains), slot, newSize, r, Snapshot(), chains)
    {
      hide Snapshot, Separated, Sized, GrowEffect, TruncateRoom, Cut, InBounds, Linked, Distinct;
      ghost var v, ch := Snapshot(), chains[slot];
      FileChain(v, reserved, chains, slot);
      var oldSize := NodeAt(slot).fileSize;
      SetSize(slot, newSize);
      if newSize != oldSize {
        ResizeChain(v, slot, newSize, ch);
        var end, currentBlocks := WalkToEnd(slot, InNode, ch, 0);
        var necessary := NecessaryBlocks(newSize);
        if newSize > oldSize && necessary > currentBlocks {
          var ok := TruncateUp(slot, oldSize, newSize, necessary - currentBlocks, end, v);
          return if ok then Sexe else ENoSpc;
        } else if newSize < oldSize && necessary < currentBlocks {
          var c := Walk(slot, necessary, ch);
          ReleaseFrom(slot, c, Snapshot(), ch, necessary);
          ShrinkKeeps(v, reserved, chains, slot, newSize);
          chains := chains[slot := ch[..necessary]];
          return Sexe;
        }
      }
      ResizeKeepsAll(v, reserved, chains, slot, newSize);
      return Sexe;
    }

    /** Releases every block of the file and marks its slot deleted. */
    method Unlink(slot: nat) returns (r: Code)
      requires Valid() && LiveFile(Snapshot(), slot)
      modifies this`chains, table, links, bits
      ensures Valid()
      ensures r == Sexe && UnlinkEffect(old(Snapshot()), old(chains), slot, Snapshot(), chains)
    {
      hide Snapshot, WellFormed, Cut, InBounds, Linked, Distinct;
      ghost var v, before := Snapshot(), chains;
      FileChain(v, reserved, chains, slot);
      ReleaseFrom(slot, InNode, v, chains[slot], 0);
      SetNode(slot, NodeAt(slot).(state := Deleted));
      chains := chains[slot := []];
      UnlinkKeeps(v, reserved, before, slot, Snapshot(), chains);
      return Sexe;
    }

    /** The next `n` bytes of a read, which do not cross a block boundary. */
    method FetchPiece(slot: nat, c: Cursor, inBlock: nat, n: nat, got: seq<byte>, ghost ch: Chain, ghost i: nat,
                      ghost offset: nat, ghost upto: nat) returns (buff: seq<byte>, next: Cursor)
      requires Areas() && slot < table.Length && InBounds(ch, links.Length)
      requires Linked(Snapshot().table[slot].firstBlock, Snapshot().links, ch)
      requires AtPiece(ch, i, inBlock, upto) && inBlock + n <= BLOCK_SIZE && c == CursorAt(ch, i)
      requires Fits(Snapshot().data, ch, upto + n) && Fetched(Snapshot().data, ch, offset, upto, got)
      ensures Fetched(Snapshot().data, ch, offset, upto + n, buff)
      ensures next == CursorAt(ch, i + 1) && (next.InMap? ==> next.cell < links.Length) && (Get(slot, next) == END_OF_FILE <==> i + 1 == |ch|)
    {
      hide Linked, InBounds, Fits, Fetched, At;
      ghost var v := Snapshot();
      CursorReads(v, slot, ch, i);
      CursorReads(v, slot, ch, i + 1);
      FetchedMore(v.data, ch, i, inBlock, offset, upto, got, n);
      var at := BLOCK_SIZE * Get(slot, c) + inBlock;
      assert data[at..at + n] == v.data[at..at + n];
      buff := got + data[at..at + n];
      next := InMap(Get(slot, c));
    }

    /** Collects, block by block, `size` bytes from `offset` on, all of them within the file. */
    method Fetch(slot: nat, offset: nat, size: nat, ghost ch: Chain) returns (buff: seq<byte>)
      requires Areas() && slot < table.Length && InBounds(ch, links.Length)
      requires Linked(Snapshot().table[slot].firstBlock, Snapshot().links, ch)
      requires Fits(Snapshot().data, ch, offset + size) && BlocksFor(offset + 1) <= |ch|
      ensures Fetched(Snapshot().data, ch, offset, offset + size, buff)
    {
      hide Snapshot, Fits, BlocksFor, Linked, InBounds, AtPiece, Fetched, Deref, At;
      ghost var v := Snapshot();
      var movs := offset / BLOCK_SIZE;
      var inBlock := offset - BLOCK_SIZE * movs;
      FirstPiece(ch, offset, 1);
      FetchedNothing(v.data, ch, offset, offset + size);
      var c := Walk(slot, movs, ch);
      var reading := if BLOCK_SIZE - inBlock >= size then size else BLOCK_SIZE - inBlock;
      FitsLess(v.data, ch, offset + reading, offset + size);
      FitsLess(v.data, ch, offset + size, offset + size);
      PieceInChain(ch, movs, inBlock, offset, reading, offset + size);
      buff, c := FetchPiece(slot, c, inBlock, reading, [], ch, movs, offset, offset);
      ghost var i: nat := movs + 1;
      ghost var upto := offset + reading;
      var toRead := size - reading;
      while Get(slot, c) != END_OF_FILE && toRead > 0
        invariant toRead >= 0 && upto + toRead == offset + size && i <= |ch| && c == CursorAt(ch, i)
        invariant c.InMap? ==> c.cell < links.Length
        invariant toRead > 0 ==> AtPiece(ch, i, 0, upto)
        invariant Get(slot, c) == END_OF_FILE ==> toRead == 0
        invariant Fetched(v.data, ch, offset, upto, buff)
        decreases toRead
      {
        reading := if toRead >= BLOCK_SIZE then BLOCK_SIZE else toRead;
        FitsLess(v.data, ch, upto + reading, offset + size);
        PieceInChain(ch, i, 0, upto, reading, offset + size);
        buff, c := FetchPiece(slot, c, 0, reading, buff, ch, i, offset, upto);
        toRead := toRead - reading;
        upto := upto + reading;
        i := i + 1;
      }
    }

    /** Clips the range to the file and collects its bytes. The guard compares unsigned, so an empty file
        lets almost every read through, and the walk then follows END_OF_FILE out of the mapping table. The
        end of the range is a 32-bit sum: a size that is not clipped because the sum wrapped around is
        negative as the `int` that counts the bytes to read, so the loop stops after the first piece. */
    method Read(slot: nat, offset: uint32, size: uint32) returns (r: ReadOutcome)
      requires Valid() && LiveFile(Snapshot(), slot)
      ensures r == ReadEffect(FileBytes(Snapshot(), reserved, chains, slot), offset, size)
    {
      hide WellFormed, Snapshot, FileBytes, Fits, BlocksFor, Linked, InBounds, Fetched;
      FileFits(Snapshot(), reserved, chains, slot);
      SizesFitInt(Snapshot(), reserved, chains, slot);
      var fileSize := NodeAt(slot).fileSize;
      var limit := if fileSize == 0 then 0xffff_ffff else fileSize - 1;
      if offset < limit {
        if NodeAt(slot).firstBlock == END_OF_FILE { return WildPointer; }
        var n := if U32(offset + size) > fileSize then fileSize - offset else size;
        if I32(n) < 0 {
          var first := BLOCK_SIZE - offset % BLOCK_SIZE;
          FilePiece(Snapshot(), reserved, chains, slot, offset, first);
          var _ := Fetch(slot, offset, first, chains[slot]);
          return BadCount(I32(n));
        }
        FileSlice(Snapshot(), reserved, chains, slot, offset, n);
        var buff := Fetch(slot, offset, n, chains[slot]);
        FetchedSlice(Snapshot(), reserved, chains, slot, offset, n, buff);
        return Content(buff);
      }
      return Content([]);
    }
  }

  /** The block count as the code computes it: a quotient, and one more for a remainder. */
  function NecessaryBlocks(size: uint32): (r: nat)
    ensures r == BlocksFor(size)
  {
    var n := size / BLOCK_SIZE;
    if size > 0 && (n == 0 || size % BLOCK_SIZE >= 1) then n + 1 else n
  }

  /** After the growth, if one was needed, the chain reaches to the end of the request. */
  lemma ReadyToCopy(v: Volume, chains: seq<Chain>, slot: nat, end: nat, u: Volume, reserved: seq<bool>, chains': seq<Chain>)
    requires WellFormed(u, reserved, chains') && LiveFile(v, slot) && |chains| == |v.table| && end <= 0xffff_ffff
    requires if end > v.table[slot].fileSize
      then GrowEffect(v, chains, slot, end, RoomFor(v, chains[slot], end), true, u, chains')
      else u == v && chains' == chains
    ensures |chains'| == |u.table| == |v.table| && LiveFile(u, slot) && InBounds(chains'[slot], |u.links|)
    ensures Distinct(chains'[slot]) && Linked(u.table[slot].firstBlock, u.links, chains'[slot]) && Fits(u.data, chains'[slot], end)
  {
    if end > v.table[slot].fileSize { GrowInPlace(v, chains, slot, end, RoomFor(v, chains[slot], end), true, u, chains'); }
    ChainInBounds(u, reserved, chains', slot);
    DisjointDistinct(chains', slot);
  }

  lemma FileChain(v: Volume, reserved: seq<bool>, chains: seq<Chain>, slot: nat)
    requires WellFormed(v, reserved, chains) && LiveFile(v, slot)
    ensures |chains| == |v.table| && InBounds(chains[slot], |v.links|) && Distinct(chains[slot])
    ensures Linked(v.table[slot].firstBlock, v.links, chains[slot]) && |chains[slot]| == BlocksFor(v.table[slot].fileSize)
  {
    ChainInBounds(v, reserved, chains, slot);
    DisjointDistinct(chains, slot);
  }

  lemma ResizeChain(v: Volume, slot: nat, size: uint32, ch: Chain)
    requires slot < |v.table| && InBounds(ch, |v.links|) && Linked(v.table[slot].firstBlock, v.links, ch)
    ensures var w := Resize(v, slot, size);
      |w.table| == |v.table| && w.links == v.links && Linked(w.table[slot].firstBlock, w.links, ch)
  {
  }

  lemma TruncateScan(v: Volume, slot: nat, ch: Chain, size: uint32)
    requires Growable(v, slot, ch, size) && |ch| < BlocksFor(size)
    ensures var need := BlocksFor(size) - |ch|;
      && Units(need, 1) == need
      && Extended(Resize(v, slot, size), slot, ch, need) == Grown(v, slot, ch, size)
      && (ScanStop(Resize(v, slot, size).bits, 0, need) < |v.bits| <==> TruncateRoom(v, ch, size))
  {
    ScanRunsOut(v.bits, 0, BlocksFor(size) - |ch|);
  }

  lemma FileFits(v: Volume, reserved: seq<bool>, chains: seq<Chain>, slot: nat)
    requires WellFormed(v, reserved, chains) && LiveFile(v, slot)
    ensures |chains| == |v.table| && InBounds(chains[slot], |v.links|)
    ensures Linked(v.table[slot].firstBlock, v.links, chains[slot]) && Fits(v.data, chains[slot], v.table[slot].fileSize)
    ensures v.table[slot].firstBlock == END_OF_FILE <==> v.table[slot].fileSize == 0
    ensures |FileBytes(v, reserved, chains, slot)| == v.table[slot].fileSize
  {
    ChainInBounds(v, reserved, chains, slot);
  }

  lemma FileSlice(v: Volume, reserved: seq<bool>, chains: seq<Chain>, slot: nat, offset: nat, n: nat)
    requires WellFormed(v, reserved, chains) && LiveFile(v, slot)
    requires offset + n <= v.table[slot].fileSize && offset < v.table[slot].fileSize
    ensures |chains| == |v.table| && Fits(v.data, chains[slot], offset + n) && BlocksFor(offset + 1) <= |chains[slot]|
  {
    ChainInBounds(v, reserved, chains, slot);
  }

  lemma FilePiece(v: Volume, reserved: seq<bool>, chains: seq<Chain>, slot: nat, offset: nat, n: nat)
    requires WellFormed(v, reserved, chains) && LiveFile(v, slot)
    requires offset % BLOCK_SIZE + n <= BLOCK_SIZE && n > 0 && offset < v.table[slot].fileSize
    ensures |chains| == |v.table| && Fits(v.data, chains[slot], offset + n) && BlocksFor(offset + 1) <= |chains[slot]|
  {
    ChainInBounds(v, reserved, chains, slot);
  }

  lemma FetchedSlice(v: Volume, reserved: seq<bool>, chains: seq<Chain>, slot: nat, offset: nat, n: nat, buff: seq<byte>)
    requires WellFormed(v, reserved, chains) && LiveFile(v, slot) && |chains| == |v.table|
    requires offset + n <= v.table[slot].fileSize && Fetched(v.data, chains[slot], offset, offset + n, buff)
    ensures buff == FileBytes(v, reserved, chains, slot)[offset..offset + n]
  {
    ChainInBounds(v, reserved, chains, slot);
  }
}
