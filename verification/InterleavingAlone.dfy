/** Left alone, the sections of a request are the sequential operation. */
module InterleavingAlone {
  import opened Osada
  import opened Words
  import opened Volumes
  import opened Allocation
  import opened Contents
  import opened Growth
  import opened Effects
  import opened Interleaving
  import opened InterleavingSafety

  // ---------- the steps are those of the sequential operation ----------

  /** The volume after `n` further steps of slot `s` that nothing interrupts. */
  function Steps(a: System, s: nat, n: nat): System
    decreases n
  {
    if n == 0 || !Runnable(a, s) then a else Steps(Advance(a, s), s, n - 1)
  }

  /** The extension section alone, once the first section is behind the request. */
  lemma AloneScan(v: Volume, a: System, s: nat, req: Request, was: uint32, ch: Chain, size: uint32)
    requires s < |a.stages| && a.stages[s] == Scan(req, was) && Runnable(a, s) && req.Write?
    requires Growable(v, s, ch, size) && was < size && FirstFound(v, ch) && |ch| == BlocksFor(was)
    requires a.v == Started(v, s, ch, size) && a.chains[s] == StartChain(v, ch) && a.v.table[s].fileSize == size
    ensures var b := Advance(a, s);
      && s < |b.stages| && b.v == Grown(v, s, ch, size) && b.chains == a.chains[s := ch + NewBlocks(v, ch, size)]
      && b.stages[s] == (if RoomFor(v, ch, size) then Copy(req, 0) else Undo(req, was))
  {
    hide Started, StartChain, Extended, Wanted, NewBlocks, Grown, RoomFor, ScanStop, Separated, FirstFound;
    StartedThenExtended(v, s, ch, size);
    StartedStop(v, s, ch, size);
    StartLength(v, ch);
    ScanNeedIs(req, size, was, a.chains[s], ch);
  }

  /** The request when its extension scan comes next: the growth has begun, and nothing else happened. */
  ghost predicate ScanNext(a: System, b: System, s: int, req: Request, size: uint32) {
    && 0 <= s < |a.stages| == |b.stages| && 0 <= s < |a.chains| && Growable(a.v, s, a.chains[s], size)
    && b.stages[s] == Scan(req, a.v.table[s].fileSize) && Runnable(b, s)
    && b.v == Started(a.v, s, a.chains[s], size) && b.v.table[s].fileSize == size
    && b.chains == a.chains[s := StartChain(a.v, a.chains[s])]
  }

  lemma AloneBegins(reserved: seq<bool>, a: System, s: nat, req: Request)
    requires SystemInv(reserved, a) && s < |a.stages| && a.stages[s] == Ready(req) && req.Write?
    requires req.offset + |req.buffer| > a.v.table[s].fileSize && a.chains[s] != []
    ensures Runnable(a, s) && ScanNext(a, Advance(a, s), s, req, req.offset + |req.buffer|)
  {
    hide Separated, Kept, Extended, Wanted;
    SlotIsLocated(reserved, a, s);
    SizedFiles(reserved, a, s);
    assert a.chains[s := a.chains[s]] == a.chains;
  }

  lemma AloneBeginsEmpty(reserved: seq<bool>, a: System, s: nat, req: Request)
    requires SystemInv(reserved, a) && s < |a.stages| && a.stages[s] == Ready(req) && req.Write?
    requires req.offset + |req.buffer| > a.v.table[s].fileSize && a.chains[s] == [] && FirstFound(a.v, [])
    ensures Runnable(a, s) && Runnable(Advance(a, s), s)
    ensures ScanNext(a, Advance(Advance(a, s), s), s, req, req.offset + |req.buffer|)
  {
    hide Separated, Kept, Extended, FirstFit, CountFree;
    SlotIsLocated(reserved, a, s);
    SizedFiles(reserved, a, s);
    FirstBlockIsFound(a.v);
    var u := Resize(a.v, s, req.offset + |req.buffer|);
    ExtendedPlain(u, s, [], 1);
    assert [] + Wanted(u, 1) == Wanted(a.v, 1);
    assert a.chains[s := []][s := Wanted(a.v, 1)] == a.chains[s := Wanted(a.v, 1)];
  }

  /** Left alone, the sections of a growing write compute the growth of the sequential operation and
      learn at the same point whether there was room for it. */
  lemma AloneItGrows(reserved: seq<bool>, a: System, s: nat, req: Request)
    requires SystemInv(reserved, a) && s < |a.stages| && a.stages[s] == Ready(req) && req.Write?
    requires req.offset + |req.buffer| > a.v.table[s].fileSize && FirstFound(a.v, a.chains[s])
    ensures Growable(a.v, s, a.chains[s], req.offset + |req.buffer|)
    ensures var size, b := req.offset + |req.buffer|, Steps(a, s, if a.chains[s] == [] then 3 else 2);
      && s < |b.stages|
      && b.v == Grown(a.v, s, a.chains[s], size) && b.chains == a.chains[s := a.chains[s] + NewBlocks(a.v, a.chains[s], size)]
      && b.stages[s] == (if RoomFor(a.v, a.chains[s], size) then Copy(req, 0) else Undo(req, a.v.table[s].fileSize))
  {
    hide Separated, Kept, Started, StartChain, Grown, RoomFor, NewBlocks, Advance, Runnable, FirstFound;
    var size, was, ch := req.offset + |req.buffer|, a.v.table[s].fileSize, a.chains[s];
    SizedFiles(reserved, a, s);
    if ch == [] {
      AloneBeginsEmpty(reserved, a, s, req);
      var c := Advance(Advance(a, s), s);
      AloneScan(a.v, c, s, req, was, ch, size);
      assert Steps(a, s, 3) == Steps(Advance(a, s), s, 2) == Steps(c, s, 1) == Steps(Advance(c, s), s, 0);
    } else {
      AloneBegins(reserved, a, s, req);
      var c := Advance(a, s);
      AloneScan(a.v, c, s, req, was, ch, size);
      assert Steps(a, s, 2) == Steps(c, s, 1) == Steps(Advance(c, s), s, 0);
    }
  }

  lemma MoreSteps(a: System, s: nat, n: nat)
    requires Runnable(a, s)
    ensures Steps(a, s, n + 1) == Steps(Advance(a, s), s, n)
  {
  }

  lemma {:induction false} StepsAgain(a: System, s: nat, n: nat, more: nat)
    ensures Steps(Steps(a, s, n), s, more) == Steps(a, s, n + more) || !Runnable(Steps(a, s, n), s)
    decreases n
  {
    hide Runnable, Advance;
    if n > 0 && Runnable(a, s) { StepsAgain(Advance(a, s), s, n - 1, more); }
  }

  // ---------- copying, piece by piece ----------

  /** One piece prolongs the copy, and the loop goes on until the whole buffer is in place. */
  lemma AlonePiece(reserved: seq<bool>, u: Volume, a: System, s: nat, req: Request, done: nat)
    requires SystemInv(reserved, a) && s < |a.stages| && a.stages[s] == Copy(req, done) && req.Write?
    requires Copied(u, a.v, a.chains[s], req.offset, req.buffer, done) && Fits(u.data, a.chains[s], req.offset + |req.buffer|)
    ensures Runnable(a, s) && done < |req.buffer|
    ensures var b, n := Advance(a, s), PieceSize(req.offset, req.buffer, done);
      && 0 < n <= |req.buffer| - done && s < |b.stages| && b.chains == a.chains
      && Copied(u, b.v, a.chains[s], req.offset, req.buffer, done + n)
      && b.stages[s] == if done + n == |req.buffer| then Done(req, Sexe) else Copy(req, done + n)
  {
    hide Separated, Kept, Within, Copied, Splice, Fits;
    var ch, k := a.chains[s], req.offset + done;
    StepCopy(reserved, a, s, req, done);
    CopyingFits(a.v, reserved, a.chains, s, req.offset + |req.buffer|);
    CopyAddress(a.v.data, ch, req.offset, req.buffer, done);
    LastPiece(ch, req.offset, req.buffer, done);
    SeparatedDistinct(a.v, reserved, a.chains, s);
    CopiedMore(u, a.v, ch, k / BLOCK_SIZE, k % BLOCK_SIZE, req.offset, req.buffer, done, PieceSize(req.offset, req.buffer, done));
    assert a.chains[s := ch] == a.chains;
  }

  lemma SeparatedDistinct(v: Volume, reserved: seq<bool>, chains: seq<Chain>, s: nat)
    requires Separated(v, reserved, chains) && s < |chains|
    ensures Distinct(chains[s])
  {
    DisjointDistinct(chains, s);
  }

  lemma {:induction false} AloneCopies(reserved: seq<bool>, u: Volume, a: System, s: nat, req: Request, done: nat) returns (n: nat)
    requires SystemInv(reserved, a) && s < |a.stages| && a.stages[s] == Copy(req, done) && req.Write?
    requires Copied(u, a.v, a.chains[s], req.offset, req.buffer, done) && Fits(u.data, a.chains[s], req.offset + |req.buffer|)
    ensures var b := Steps(a, s, n);
      && s < |b.stages| && b.stages[s] == Done(req, Sexe) && b.chains == a.chains
      && Copied(u, b.v, a.chains[s], req.offset, req.buffer, |req.buffer|)
    decreases |Buffer(req)| - done
  {
    hide SystemInv, Copied, Fits, Runnable, Advance, PieceSize;
    AlonePiece(reserved, u, a, s, req, done);
    var b := Advance(a, s);
    if b.stages[s].Done? {
      n := 1;
      assert Steps(a, s, 1) == Steps(b, s, 0);
    } else {
      StepIsSafe(reserved, a, s);
      var m := AloneCopies(reserved, u, b, s, req, done + PieceSize(req.offset, req.buffer, done));
      n := m + 1;
      MoreSteps(a, s, m);
    }
  }

  // ---------- a whole write ----------

  /** After `n` steps that nothing interrupts the request is done, with the effect of its operation. */
  ghost predicate Finishes(a: System, s: int, req: Request, n: nat, u: Volume) {
    0 <= s && var b := Steps(a, s, n);
    && s < |b.stages| && b.stages[s].Done? && b.stages[s].req == req
    && match req
       case Write(offset, buffer) => WriteEffect(a.v, a.chains, s, offset, buffer, b.stages[s].code, u, b.v, b.chains)
       case Truncate(size) => TruncateEffect(a.v, a.chains, s, size, b.stages[s].code, b.v, b.chains)
       case Unlink => b.stages[s].code == Sexe && UnlinkEffect(a.v, a.chains, s, b.v, b.chains)
  }

  lemma ReadyFile(reserved: seq<bool>, a: System, s: nat, req: Request)
    requires SystemInv(reserved, a) && s < |a.stages| && a.stages[s] == Ready(req)
    ensures LiveFile(a.v, s) && Serviceable(req) && |a.chains| == |a.v.table| && Separated(a.v, reserved, a.chains)
    ensures |a.chains[s]| == BlocksFor(a.v.table[s].fileSize)
  {
    hide Separated, Kept, BlocksFor;
  }

  lemma CopyNext(reserved: seq<bool>, u: Volume, c: System, s: nat, req: Request)
    requires SystemInv(reserved, c) && s < |c.stages| && c.stages[s] == Copy(req, 0) && req.Write? && u == c.v
    ensures Copied(u, c.v, c.chains[s], req.offset, req.buffer, 0) && Fits(u.data, c.chains[s], req.offset + |req.buffer|)
  {
    hide Separated, Kept, Fits, Copied;
    CopyingFits(c.v, reserved, c.chains, s, req.offset + |req.buffer|);
    CopiedNothing(u, c.chains[s], req.offset, req.buffer);
  }

  lemma {:induction false} StepsSafe(reserved: seq<bool>, a: System, s: nat, n: nat)
    requires SystemInv(reserved, a)
    ensures SystemInv(reserved, Steps(a, s, n))
    decreases n
  {
    hide SystemInv, Runnable, Advance;
    if n > 0 && Runnable(a, s) {
      RunnableMoves(a, s);
      StepIsSafe(reserved, a, s);
      StepsSafe(reserved, Advance(a, s), s, n - 1);
    }
  }

  lemma RunnableMoves(a: System, s: nat)
    requires Runnable(a, s)
    ensures s < |a.stages| && !a.stages[s].Idle? && !a.stages[s].Done?
  {
  }

  /** A write that stays within its file. */
  lemma AloneInside(reserved: seq<bool>, a: System, s: nat, req: Request) returns (n: nat)
    requires SystemInv(reserved, a) && s < |a.stages| && a.stages[s] == Ready(req) && req.Write?
    requires req.offset + |req.buffer| <= a.v.table[s].fileSize
    ensures Finishes(a, s, req, n, a.v)
  {
    hide SystemInv, Copied, Fits, Separated, Steps;
    ReadyFile(reserved, a, s, req);
    StepIsSafe(reserved, a, s);
    var c := Advance(a, s);
    assert c.v == a.v && c.chains == a.chains && c.stages[s] == Copy(req, 0);
    CopyNext(reserved, a.v, c, s, req);
    var m := AloneCopies(reserved, a.v, c, s, req, 0);
    n := m + 1;
    MoreSteps(a, s, m);
  }

  /** A write to an empty file that finds no block at all. */
  lemma AloneNoBlock(reserved: seq<bool>, a: System, s: nat, req: Request) returns (n: nat)
    requires SystemInv(reserved, a) && s < |a.stages| && a.stages[s] == Ready(req) && req.Write?
    requires req.offset + |req.buffer| > a.v.table[s].fileSize && !FirstFound(a.v, a.chains[s])
    ensures Finishes(a, s, req, n, a.v)
  {
    hide Separated, Kept, Extended, FirstFit, CountFree, Undone, NewBlocks, HasRoom, FirstFound;
    SlotIsLocated(reserved, a, s);
    ReadyFile(reserved, a, s, req);
    NothingFound(a.v, a.chains[s], req.offset + |req.buffer|);
    FirstBlockIsFound(a.v);
    EmptyHere(a.v, a.chains[s]);
    n := 2;
    var c := Advance(a, s);
    assert c.stages[s] == FirstBlock(req, a.v.table[s].fileSize);
    var d := Advance(c, s);
    assert d.stages[s] == Done(req, ENoSpc);
    assert d.v == a.v && d.chains == a.chains;
    MoreSteps(a, s, 1);
    MoreSteps(c, s, 0);
  }

  lemma EmptyHere(v: Volume, ch: Chain)
    requires !FirstFound(v, ch)
    ensures ch == [] && !FirstFound(v, [])
  {
  }

  /** A growth that runs out of blocks is rolled back. */
  lemma AloneUndoes(reserved: seq<bool>, a: System, b: System, s: nat, req: Request, size: uint32)
    requires Separated(a.v, reserved, a.chains) && LiveFile(a.v, s) && Growable(a.v, s, a.chains[s], size) && |a.chains| == |a.v.table|
    requires |a.chains[s]| == BlocksFor(a.v.table[s].fileSize)
    requires s < |b.stages| && b.stages[s] == Undo(req, a.v.table[s].fileSize) && Runnable(b, s)
    requires b.v == Grown(a.v, s, a.chains[s], size) && b.chains == a.chains[s := a.chains[s] + NewBlocks(a.v, a.chains[s], size)]
    ensures var d := Advance(b, s);
      && s < |d.stages| && d.stages[s] == Done(req, ENoSpc) && d.chains == a.chains
      && Undone(a.v, d.v, NewBlocks(a.v, a.chains[s], size))
  {
    hide Separated, Grown, NewBlocks, Undone, Cut, BlocksFor, Resize;
    GrownUndone(a.v, reserved, a.chains, s, size);
    var ch, blocks := a.chains[s], NewBlocks(a.v, a.chains[s], size);
    assert (ch + blocks)[..|ch|] == ch;
    assert a.chains[s := ch + blocks][s := ch] == a.chains;
  }

  /** A write that enlarges its file, with room or without. */
  lemma AloneOutside(reserved: seq<bool>, a: System, s: nat, req: Request) returns (n: nat, u: Volume)
    requires SystemInv(reserved, a) && s < |a.stages| && a.stages[s] == Ready(req) && req.Write?
    requires req.offset + |req.buffer| > a.v.table[s].fileSize && FirstFound(a.v, a.chains[s])
    ensures Finishes(a, s, req, n, u)
  {
    hide SystemInv, Separated, Grown, NewBlocks, Undone, RoomFor, Copied, Fits, FirstFound, BlocksFor, Advance, Runnable, Growable, Steps;
    var size := req.offset + |req.buffer|;
    ReadyFile(reserved, a, s, req);
    AloneItGrows(reserved, a, s, req);
    var k := if a.chains[s] == [] then 3 else 2;
    var b := Steps(a, s, k);
    StepsSafe(reserved, a, s, k);
    if RoomFor(a.v, a.chains[s], size) {
      u := b.v;
      CopyNext(reserved, u, b, s, req);
      var m := AloneCopies(reserved, u, b, s, req, 0);
      CopyRunnable(reserved, b, s, req);
      StepsAgain(a, s, k, m);
      n := k + m;
    } else {
      StepIsSafe(reserved, b, s);
      AloneUndoes(reserved, a, b, s, req, size);
      u := Advance(b, s).v;
      StepsAgain(a, s, k, 1);
      MoreSteps(b, s, 0);
      NoStep(Advance(b, s), s);
      n := k + 1;
    }
  }

  lemma NoStep(a: System, s: nat)
    ensures Steps(a, s, 0) == a
  {
  }

  lemma CopyRunnable(reserved: seq<bool>, b: System, s: nat, req: Request)
    requires SystemInv(reserved, b) && s < |b.stages| && b.stages[s] == Copy(req, 0)
    ensures Runnable(b, s)
  {
    hide SystemInv, Runnable;
    StepIsSafe(reserved, b, s);
  }

  // ---------- a whole truncate, a whole unlink ----------

  lemma TruncateStop(v: Volume, ch: Chain, size: nat)
    requires |v.bits| < END_OF_FILE && |ch| < BlocksFor(size)
    ensures ScanStop(v.bits, 0, BlocksFor(size) - |ch|) < |v.bits| <==> TruncateRoom(v, ch, size)
  {
    ScanRunsOut(v.bits, 0, BlocksFor(size) - |ch|);
  }

  /** The scan of a truncate that needs more blocks. */
  lemma AloneTruncateScan(reserved: seq<bool>, a: System, s: nat, req: Request)
    requires SystemInv(reserved, a) && s < |a.stages| && a.stages[s] == Ready(req) && req.Truncate?
    requires req.size > a.v.table[s].fileSize && BlocksFor(req.size) > |a.chains[s]|
    ensures Runnable(a, s) && Runnable(Advance(a, s), s) && Growable(a.v, s, a.chains[s], req.size)
    ensures var b := Advance(Advance(a, s), s);
      && s < |b.stages|
      && b.v == Grown(a.v, s, a.chains[s], req.size) && b.chains == a.chains[s := a.chains[s] + NewBlocks(a.v, a.chains[s], req.size)]
      && b.stages[s] == if TruncateRoom(a.v, a.chains[s], req.size) then Done(req, Sexe) else Undo(req, a.v.table[s].fileSize)
  {
    hide Separated, Kept, Extended, FirstFit, TruncateRoom, ScanStop, BlocksFor;
    SlotIsLocated(reserved, a, s);
    ReadyFile(reserved, a, s, req);
    TruncateStop(a.v, a.chains[s], req.size);
    assert a.chains[s := a.chains[s]] == a.chains;
  }

  lemma AloneTruncate(reserved: seq<bool>, a: System, s: nat, req: Request) returns (n: nat)
    requires SystemInv(reserved, a) && s < |a.stages| && a.stages[s] == Ready(req) && req.Truncate?
    ensures Finishes(a, s, req, n, a.v)
  {
    hide SystemInv, Separated, Grown, NewBlocks, Undone, TruncateRoom, BlocksFor, Cut;
    ReadyFile(reserved, a, s, req);
    StepIsSafe(reserved, a, s);
    var ch, c := a.chains[s], Advance(a, s);
    MoreSteps(a, s, 0);
    MoreSteps(a, s, 1);
    assert a.chains[s := ch] == a.chains;
    if req.size > a.v.table[s].fileSize && BlocksFor(req.size) > |ch| {
      n := AloneTruncateUp(reserved, a, s, req);
    } else if req.size < a.v.table[s].fileSize && BlocksFor(req.size) < |ch| {
      StepIsSafe(reserved, c, s);
      MoreSteps(c, s, 0);
      NoStep(Advance(c, s), s);
      n := 2;
    } else {
      NoStep(c, s);
      n := 1;
    }
  }

  lemma AloneTruncateUp(reserved: seq<bool>, a: System, s: nat, req: Request) returns (n: nat)
    requires SystemInv(reserved, a) && s < |a.stages| && a.stages[s] == Ready(req) && req.Truncate?
    requires req.size > a.v.table[s].fileSize && BlocksFor(req.size) > |a.chains[s]|
    ensures Finishes(a, s, req, n, a.v)
  {
    hide SystemInv, Separated, Grown, NewBlocks, Undone, TruncateRoom, BlocksFor, Advance, Runnable, Growable;
    ReadyFile(reserved, a, s, req);
    AloneTruncateScan(reserved, a, s, req);
    var b := Advance(Advance(a, s), s);
    StepIsSafe(reserved, a, s);
    RunnableMoves(Advance(a, s), s);
    StepIsSafe(reserved, Advance(a, s), s);
    assert Steps(a, s, 2) == Steps(Advance(a, s), s, 1) == Steps(b, s, 0) == b;
    if TruncateRoom(a.v, a.chains[s], req.size) {
      n := 2;
    } else {
      StepIsSafe(reserved, b, s);
      AloneUndoes(reserved, a, b, s, req, req.size);
      assert Steps(a, s, 3) == Steps(Advance(a, s), s, 2) == Steps(b, s, 1) == Steps(Advance(b, s), s, 0);
      n := 3;
    }
  }

  lemma AloneUnlink(reserved: seq<bool>, a: System, s: nat, req: Request)
    requires SystemInv(reserved, a) && s < |a.stages| && a.stages[s] == Ready(req) && req.Unlink?
    ensures Finishes(a, s, req, 2, a.v)
  {
    hide SystemInv, Separated, Cut;
    ReadyFile(reserved, a, s, req);
    StepIsSafe(reserved, a, s);
    var c := Advance(a, s);
    StepIsSafe(reserved, c, s);
    MoreSteps(a, s, 1);
    MoreSteps(c, s, 0);
    assert a.chains[s := []][s := []] == a.chains[s := []];
  }

  /** Left alone, whatever the others have under way, the sections of any request end with the effect of
      the sequential operation: write, truncate or unlink, with room or without. */
  lemma AloneItIsSequential(reserved: seq<bool>, a: System, s: nat, req: Request) returns (n: nat, u: Volume)
    requires SystemInv(reserved, a) && s < |a.stages| && a.stages[s] == Ready(req)
    ensures Finishes(a, s, req, n, u)
  {
    hide SystemInv, Finishes, FirstFound;
    u := a.v;
    match req {
      case Unlink => AloneUnlink(reserved, a, s, req); n := 2;
      case Truncate(_) => n := AloneTruncate(reserved, a, s, req);
      case Write(offset, buffer) =>
        SlotIsLocated(reserved, a, s);
        if offset + |buffer| <= a.v.table[s].fileSize {
          n := AloneInside(reserved, a, s, req);
        } else if FirstFound(a.v, a.chains[s]) {
          n, u := AloneOutside(reserved, a, s, req);
        } else {
          n := AloneNoBlock(reserved, a, s, req);
        }
    }
  }
}
