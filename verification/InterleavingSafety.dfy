/** Safety of interleaved requests, step by step. Whatever slot takes its next step, every pointer it
    follows is in range, the chains stay separate, the bitmap stays exact and every slot keeps its own part
    of the invariant: the one that steps because of what the step does, the others because it touches
    neither their nodes nor their chains nor a byte of theirs. */
module InterleavingSafety {
  import opened Osada
  import opened Words
  import opened Volumes
  import opened Allocation
  import opened Contents
  import opened Growth
  import opened Effects
  import opened Interleaving

  /** A step of slot `s` leaves the nodes, chains, bytes and stages of the others alone. */
  ghost predicate Elsewhere(a: System, b: System, s: int) {
    && |b.v.table| == |a.v.table| && |b.chains| == |a.chains| && |b.stages| == |a.stages|
    && |b.v.data| == |a.v.data| && b.bases == a.bases
    && (forall t :: 0 <= t < |a.v.table| && t != s ==> b.v.table[t] == a.v.table[t])
    && (forall t :: 0 <= t < |a.chains| && t != s ==> b.chains[t] == a.chains[t])
    && (forall t :: 0 <= t < |a.stages| && t != s ==> b.stages[t] == a.stages[t])
    && (forall t, k | 0 <= t < |a.chains| && t != s && 0 <= k && k / BLOCK_SIZE < |a.chains[t]| && Pos(a.chains[t], k) < |a.v.data| ::
          b.v.data[Pos(a.chains[t], k)] == a.v.data[Pos(a.chains[t], k)])
  }

  /** What has to be shown of a step of slot `s`. */
  ghost predicate Safe(reserved: seq<bool>, a: System, b: System, s: int) {
    && Elsewhere(a, b, s)
    && Separated(b.v, reserved, b.chains)
    && 0 <= s < |b.stages| == |b.v.table| == |b.chains| == |a.bases|
    && SlotInv(a.bases[s].node, a.bases[s].chain, a.bases[s].data, b.v.table[s], b.chains[s], b.v.data, b.stages[s])
  }

  // ---------- the other slots ----------

  lemma KeptFrame(data0: seq<byte>, ch0: Chain, data: seq<byte>, data': seq<byte>, ch: Chain, offset: nat, buffer: seq<byte>, done: nat)
    requires Kept(data0, ch0, data, ch, offset, buffer, done) && |data'| == |data|
    requires forall k :: 0 <= k && k / BLOCK_SIZE < |ch| && Pos(ch, k) < |data| ==> data'[Pos(ch, k)] == data[Pos(ch, k)]
    ensures Kept(data0, ch0, data', ch, offset, buffer, done)
  {
  }

  lemma SlotFrame(node0: Node, ch0: Chain, data0: seq<byte>, node: Node, ch: Chain, data: seq<byte>, data': seq<byte>, stage: Stage)
    requires SlotInv(node0, ch0, data0, node, ch, data, stage) && |data'| == |data|
    requires forall k :: 0 <= k && k / BLOCK_SIZE < |ch| && Pos(ch, k) < |data| ==> data'[Pos(ch, k)] == data[Pos(ch, k)]
    ensures SlotInv(node0, ch0, data0, node, ch, data', stage)
  {
    hide Kept, NodeIs, Serviceable, Target;
    forall offset: nat, buffer: seq<byte>, done: nat | Kept(data0, ch0, data, ch, offset, buffer, done)
      ensures Kept(data0, ch0, data', ch, offset, buffer, done) {
      KeptFrame(data0, ch0, data, data', ch, offset, buffer, done);
    }
  }

  /** A safe step keeps the whole invariant. */
  lemma SafeKeeps(reserved: seq<bool>, a: System, b: System, s: nat)
    requires SystemInv(reserved, a) && Safe(reserved, a, b, s)
    ensures SystemInv(reserved, b)
  {
    hide SlotInv, Separated;
    forall t | 0 <= t < |b.stages|
      ensures SlotInv(a.bases[t].node, a.bases[t].chain, a.bases[t].data, b.v.table[t], b.chains[t], b.v.data, b.stages[t]) {
      if t != s {
        SlotFrame(a.bases[t].node, a.bases[t].chain, a.bases[t].data, a.v.table[t], a.chains[t], a.v.data, b.v.data, a.stages[t]);
      }
    }
  }

  // ---------- steps that copy nothing ----------

  lemma SameDataElsewhere(a: System, s: nat, w: Volume, ch: Chain, stage: Stage)
    requires s < |a.chains| == |a.stages| == |a.v.table| == |w.table| && w.data == a.v.data
    requires forall t :: 0 <= t < |a.v.table| && t != s ==> w.table[t] == a.v.table[t]
    ensures Elsewhere(a, With(a, s, w, ch, stage), s)
  {
  }

  lemma InDataOf(v: Volume, reserved: seq<bool>, chains: seq<Chain>, s: nat)
    requires Separated(v, reserved, chains) && s < |chains|
    ensures Within(v.data, chains[s])
  {
    ChainInBounds(v, reserved, chains, s);
  }

  lemma KeptOther(data0: seq<byte>, ch0: Chain, data: seq<byte>, ch: Chain, ch': Chain)
    requires Kept(data0, ch0, data, ch, 0, [], 0) && (ch' <= ch || (ch <= ch' && ch0 <= ch))
    requires Within(data, ch')
    ensures Kept(data0, ch0, data, ch', 0, [], 0)
  {
    forall k | 0 <= k && k / BLOCK_SIZE < |ch'| && k / BLOCK_SIZE < |ch0| ensures data[Pos(ch', k)] == data0[Pos(ch0, k)] {
      assert Pos(ch', k) == Pos(ch, k);
    }
  }

  lemma ScanFinds(v: Volume, need: nat)
    requires |v.bits| < END_OF_FILE && ScanStop(v.bits, 0, need) < |v.bits|
    ensures |Wanted(v, need)| == need
  {
    FirstFitCount(v.bits, 0, need);
    if need > 0 {
      ScanRunsOut(v.bits, 0, need);
      CountSplit(v.bits, 0);
    }
  }

  lemma ExtendedPlain(v: Volume, slot: nat, ch: Chain, need: nat)
    requires slot < |v.table| && |v.links| == |v.bits| < END_OF_FILE && InBounds(ch, |v.links|)
    ensures var w := Extended(v, slot, ch, need);
      && w.data == v.data && |w.table| == |v.table| && |w.links| == |v.links| && |w.bits| == |v.bits|
      && (forall t :: 0 <= t < |v.table| && t != slot ==> w.table[t] == v.table[t])
      && NodeIs(v.table[slot], w.table[slot], v.table[slot].state, v.table[slot].fileSize)
  {
    AppendAllTable(v, slot, ch, Wanted(v, need));
    AppendAllBits(v, slot, ch, Wanted(v, need));
  }

  /** Taking blocks, from whichever section, is safe as far as the volume goes. */
  lemma ExtendingIsSafe(reserved: seq<bool>, a: System, s: nat, need: nat, stage: Stage)
    requires SystemInv(reserved, a) && s < |a.chains| && LiveFile(a.v, s) && Located(a, s)
    ensures var b := With(a, s, Extended(a.v, s, a.chains[s], need), a.chains[s] + Wanted(a.v, need), stage);
      Elsewhere(a, b, s) && Separated(b.v, reserved, b.chains)
  {
    hide Separated, SlotInv, Extended, Wanted, Elsewhere;
    ExtendedKeeps(a.v, reserved, a.chains, s, need);
    ExtendedPlain(a.v, s, a.chains[s], need);
    SameDataElsewhere(a, s, Extended(a.v, s, a.chains[s], need), a.chains[s] + Wanted(a.v, need), stage);
  }

  lemma SlotIsLocated(reserved: seq<bool>, a: System, s: nat)
    requires SystemInv(reserved, a) && s < |a.stages|
    ensures Located(a, s)
    ensures a.bases[s].node.state == Regular ==> |a.bases[s].chain| == BlocksFor(a.bases[s].node.fileSize)
    ensures a.v.table[s].state == Regular ==> (a.v.table[s].firstBlock == END_OF_FILE <==> a.chains[s] == [])
  {
    ChainInBounds(a.v, reserved, a.chains, s);
  }

  /** The extension scan asks for exactly the blocks still missing. */
  lemma ScanNeedIs(req: Request, size: nat, was: nat, ch: Chain, ch0: Chain)
    requires !req.Unlink? && was < size && |ch0| == BlocksFor(was) && |ch| <= BlocksFor(size)
    requires if req.Write? then |ch| == (if ch0 == [] then 1 else |ch0|) else ch == ch0
    ensures ScanNeed(req, size, was, ch) == BlocksFor(size) - |ch|
  {
  }

  lemma ScanSlot(node0: Node, ch0: Chain, data0: seq<byte>, node: Node, node': Node, ch: Chain, more: Chain, data: seq<byte>,
                 req: Request, was: uint32, full: bool)
    requires SlotInv(node0, ch0, data0, node, ch, data, Scan(req, was)) && NodeIs(node, node', Regular, node.fileSize)
    requires Within(data, ch + more)
    requires !full ==> |ch + more| == BlocksFor(node.fileSize)
    ensures SlotInv(node0, ch0, data0, node', ch + more, data,
      if full then Undo(req, was) else if req.Write? then Copy(req, 0) else Done(req, Sexe))
  {
    hide Kept;
    KeptOther(data0, ch0, data, ch, ch + more);
    if req.Write? { KeptAnywhere(data0, ch0, data, ch + more, req.offset, req.buffer); }
  }

  lemma KeptAnywhere(data0: seq<byte>, ch0: Chain, data: seq<byte>, ch: Chain, offset: nat, buffer: seq<byte>)
    requires Kept(data0, ch0, data, ch, 0, [], 0)
    ensures Kept(data0, ch0, data, ch, offset, buffer, 0)
  {
  }

  lemma StepScan(reserved: seq<bool>, a: System, s: nat, req: Request, was: uint32)
    requires SystemInv(reserved, a) && s < |a.stages| && a.stages[s] == Scan(req, was)
    ensures Runnable(a, s) && Safe(reserved, a, Advance(a, s), s)
  {
    hide Separated, Extended, Wanted, Elsewhere, Kept, ScanStop, ScanNeed, Within, BlocksFor;
    SlotIsLocated(reserved, a, s);
    var v, ch := a.v, a.chains[s];
    var need := ScanNeed(req, v.table[s].fileSize, was, ch);
    var full := ScanStop(v.bits, 0, need) >= |v.bits|;
    ScanNeedIs(req, v.table[s].fileSize, was, ch, a.bases[s].chain);
    ExtendingIsSafe(reserved, a, s, need, Advance(a, s).stages[s]);
    if !full { ScanFinds(v, need); }
    ExtendedPlain(v, s, ch, need);
    InDataOf(Advance(a, s).v, reserved, Advance(a, s).chains, s);
    ScanSlot(a.bases[s].node, a.bases[s].chain, a.bases[s].data, v.table[s], Advance(a, s).v.table[s], ch, Wanted(v, need), v.data, req, was, full);
  }

  lemma ResizingIsSafe(reserved: seq<bool>, a: System, s: nat, size: uint32, stage: Stage)
    requires SystemInv(reserved, a) && s < |a.chains| && Located(a, s)
    ensures var b := With(a, s, Resize(a.v, s, size), a.chains[s], stage);
      Elsewhere(a, b, s) && Separated(b.v, reserved, b.chains)
  {
    hide Separated, SlotInv, Elsewhere;
    ResizeKeeps(a.v, reserved, a.chains, s, size);
    SameDataElsewhere(a, s, Resize(a.v, s, size), a.chains[s], stage);
    assert a.chains[s := a.chains[s]] == a.chains;
  }

  lemma CuttingIsSafe(reserved: seq<bool>, a: System, s: nat, size: uint32, keep: nat, stage: Stage)
    requires SystemInv(reserved, a) && s < |a.chains| && Located(a, s) && LiveFile(a.v, s) && keep <= |a.chains[s]|
    ensures var b := With(a, s, Cut(Resize(a.v, s, size), s, a.chains[s], keep), a.chains[s][..keep], stage);
      Elsewhere(a, b, s) && Separated(b.v, reserved, b.chains)
  {
    hide Separated, SlotInv, Elsewhere, Cut;
    ResizeKeeps(a.v, reserved, a.chains, s, size);
    CutKeeps(Resize(a.v, s, size), reserved, a.chains, s, keep);
    CutPlain(Resize(a.v, s, size), s, a.chains[s], keep);
    SameDataElsewhere(a, s, Cut(Resize(a.v, s, size), s, a.chains[s], keep), a.chains[s][..keep], stage);
  }

  lemma CutPlain(v: Volume, slot: nat, ch: Chain, keep: nat)
    requires slot < |v.table| && keep <= |ch|
    ensures var w := Cut(v, slot, ch, keep);
      && w.data == v.data && |w.table| == |v.table|
      && (forall t :: 0 <= t < |v.table| && t != slot ==> w.table[t] == v.table[t])
      && NodeIs(v.table[slot], w.table[slot], v.table[slot].state, v.table[slot].fileSize)
  {
  }

  // ---------- beginning a request ----------

  lemma StepWriteBegin(reserved: seq<bool>, a: System, s: nat, req: Request)
    requires SystemInv(reserved, a) && s < |a.stages| && a.stages[s] == Ready(req) && req.Write?
    ensures Runnable(a, s) && Safe(reserved, a, Advance(a, s), s)
  {
    hide Separated, Elsewhere, Kept, Within;
    SlotIsLocated(reserved, a, s);
    SizedFiles(reserved, a, s);
    var node := a.v.table[s];
    KeptAnywhere(a.bases[s].data, a.bases[s].chain, a.v.data, a.chains[s], req.offset, req.buffer);
    if req.offset + |req.buffer| > node.fileSize {
      ResizingIsSafe(reserved, a, s, req.offset + |req.buffer|, Advance(a, s).stages[s]);
    } else {
      ResizingIsSafe(reserved, a, s, node.fileSize, Advance(a, s).stages[s]);
      assert Resize(a.v, s, node.fileSize) == a.v;
    }
  }

  lemma SizedFiles(reserved: seq<bool>, a: System, s: nat)
    requires SystemInv(reserved, a) && s < |a.bases|
    ensures a.bases[s].node.state == Regular ==> |a.bases[s].chain| == BlocksFor(a.bases[s].node.fileSize)
  {
  }

  lemma StepTruncateBegin(reserved: seq<bool>, a: System, s: nat, req: Request)
    requires SystemInv(reserved, a) && s < |a.stages| && a.stages[s] == Ready(req) && req.Truncate?
    ensures Runnable(a, s) && Safe(reserved, a, Advance(a, s), s)
  {
    hide Separated, Elsewhere, Kept, Within;
    SlotIsLocated(reserved, a, s);
    SizedFiles(reserved, a, s);
    ResizingIsSafe(reserved, a, s, req.size, Advance(a, s).stages[s]);
  }

  lemma StepUnlinkBegin(reserved: seq<bool>, a: System, s: nat, req: Request)
    requires SystemInv(reserved, a) && s < |a.stages| && a.stages[s] == Ready(req) && req.Unlink?
    ensures Runnable(a, s) && Safe(reserved, a, Advance(a, s), s)
  {
    hide Separated, Elsewhere, Kept, Within, Cut;
    SlotIsLocated(reserved, a, s);
    var node := a.v.table[s];
    CuttingIsSafe(reserved, a, s, node.fileSize, 0, Mark(req));
    assert Resize(a.v, s, node.fileSize) == a.v && a.chains[s][..0] == [];
    CutPlain(a.v, s, a.chains[s], 0);
  }

  // ---------- the remaining steps ----------

  lemma StepFirstBlock(reserved: seq<bool>, a: System, s: nat, req: Request, was: uint32)
    requires SystemInv(reserved, a) && s < |a.stages| && a.stages[s] == FirstBlock(req, was)
    ensures Runnable(a, s) && Safe(reserved, a, Advance(a, s), s)
  {
    hide Separated, Elsewhere, Kept, Within, Extended;
    SlotIsLocated(reserved, a, s);
    if Wanted(a.v, 1) == [] {
      ResizingIsSafe(reserved, a, s, was, Done(req, ENoSpc));
    } else {
      ExtendingIsSafe(reserved, a, s, 1, Scan(req, was));
      ExtendedPlain(a.v, s, a.chains[s], 1);
      InDataOf(Advance(a, s).v, reserved, Advance(a, s).chains, s);
      KeptOther(a.bases[s].data, a.bases[s].chain, a.v.data, a.chains[s], a.chains[s] + Wanted(a.v, 1));
    }
  }

  lemma StepUndo(reserved: seq<bool>, a: System, s: nat, req: Request, was: uint32)
    requires SystemInv(reserved, a) && s < |a.stages| && a.stages[s] == Undo(req, was)
    ensures Runnable(a, s) && Safe(reserved, a, Advance(a, s), s)
  {
    hide Separated, Elsewhere, Kept, Within, Cut;
    SlotIsLocated(reserved, a, s);
    SizedFiles(reserved, a, s);
    CuttingIsSafe(reserved, a, s, was, BlocksFor(was), Done(req, ENoSpc));
    CutPlain(Resize(a.v, s, was), s, a.chains[s], BlocksFor(was));
    InDataOf(Advance(a, s).v, reserved, Advance(a, s).chains, s);
    KeptOther(a.bases[s].data, a.bases[s].chain, a.v.data, a.chains[s], a.chains[s][..BlocksFor(was)]);
    assert a.chains[s][..BlocksFor(was)] == a.bases[s].chain;
  }

  lemma StepRelease(reserved: seq<bool>, a: System, s: nat, req: Request)
    requires SystemInv(reserved, a) && s < |a.stages| && a.stages[s] == Release(req)
    ensures Runnable(a, s) && Safe(reserved, a, Advance(a, s), s)
  {
    hide Separated, Elsewhere, Kept, Within, Cut;
    SlotIsLocated(reserved, a, s);
    CuttingIsSafe(reserved, a, s, req.size, BlocksFor(req.size), Done(req, Sexe));
    assert Resize(a.v, s, req.size) == a.v;
    CutPlain(a.v, s, a.chains[s], BlocksFor(req.size));
    InDataOf(Advance(a, s).v, reserved, Advance(a, s).chains, s);
    KeptOther(a.bases[s].data, a.bases[s].chain, a.v.data, a.chains[s], a.chains[s][..BlocksFor(req.size)]);
  }

  lemma MarkKeeps(v: Volume, reserved: seq<bool>, chains: seq<Chain>, s: nat)
    requires Separated(v, reserved, chains) && s < |v.table| && chains[s] == []
    ensures Separated(Deleting(v, s), reserved, chains)
  {
    var w := Deleting(v, s);
    forall t | 0 <= t < |chains| ensures ChainOk(w.table[t], w.links, chains[t]) {
      assert ChainOk(v.table[t], v.links, chains[t]);
    }
  }

  lemma StepMark(reserved: seq<bool>, a: System, s: nat, req: Request)
    requires SystemInv(reserved, a) && s < |a.stages| && a.stages[s] == Mark(req)
    ensures Runnable(a, s) && Safe(reserved, a, Advance(a, s), s)
  {
    hide Separated, Elsewhere, Kept, Within;
    SlotIsLocated(reserved, a, s);
    MarkKeeps(a.v, reserved, a.chains, s);
    SameDataElsewhere(a, s, Deleting(a.v, s), a.chains[s], Done(req, Sexe));
    assert a.chains[s := a.chains[s]] == a.chains;
  }

  // ---------- copying a piece ----------

  lemma KeptPiece(data0: seq<byte>, ch0: Chain, chains: seq<Chain>, s: nat, data: seq<byte>, offset: nat, buffer: seq<byte>, done: nat, n: nat)
    requires Disjoint(chains) && s < |chains| && Fits(data, chains[s], offset + |buffer|)
    requires Kept(data0, ch0, data, chains[s], offset, buffer, done) && 0 < n && done + n <= |buffer|
    requires (offset + done) % BLOCK_SIZE + n <= BLOCK_SIZE && (offset + done) / BLOCK_SIZE < |chains[s]|
    requires Pos(chains[s], offset + done) + n <= |data|
    ensures Kept(data0, ch0, Splice(data, Pos(chains[s], offset + done), buffer[done..done + n]), chains[s], offset, buffer, done + n)
  {
    var ch, k, piece := chains[s], offset + done, buffer[done..done + n];
    var data' := Splice(data, Pos(ch, k), piece);
    forall j | 0 <= j && j / BLOCK_SIZE < |ch| && offset <= j < k + n ensures data'[Pos(ch, j)] == buffer[j - offset] {
      if j >= k { PosInBlock(ch, k, j - k); }
    }
    forall j | 0 <= j && j / BLOCK_SIZE < |ch| && j / BLOCK_SIZE < |ch0| && !(offset <= j < k + n)
      ensures data'[Pos(ch, j)] == data0[Pos(ch0, j)] {
    }
  }

  lemma PieceElsewhere(a: System, s: nat, k: nat, piece: seq<byte>, stage: Stage)
    requires Disjoint(a.chains) && s < |a.chains| == |a.stages| == |a.v.table|
    requires k / BLOCK_SIZE < |a.chains[s]| && k % BLOCK_SIZE + |piece| <= BLOCK_SIZE && Pos(a.chains[s], k) + |piece| <= |a.v.data|
    ensures Elsewhere(a, With(a, s, CopiedData(a.v, Pos(a.chains[s], k), piece), a.chains[s], stage), s)
  {
    var b := With(a, s, CopiedData(a.v, Pos(a.chains[s], k), piece), a.chains[s], stage);
    forall t, j | 0 <= t < |a.chains| && t != s && 0 <= j && j / BLOCK_SIZE < |a.chains[t]| && Pos(a.chains[t], j) < |a.v.data|
      ensures b.v.data[Pos(a.chains[t], j)] == a.v.data[Pos(a.chains[t], j)] {
    }
  }

  lemma SameMapsSeparated(v: Volume, reserved: seq<bool>, chains: seq<Chain>, at: nat, src: seq<byte>)
    requires Separated(v, reserved, chains) && at + |src| <= |v.data|
    ensures Separated(CopiedData(v, at, src), reserved, chains) && Disjoint(chains) && |chains| == |v.table|
  {
  }

  /** The copy loop ends at the end of the chain only when the request is complete. */
  lemma LastPiece(ch: Chain, offset: nat, buffer: seq<byte>, done: nat)
    requires done < |buffer| && BlocksFor(offset + |buffer|) <= |ch|
    ensures (offset + done) / BLOCK_SIZE + 1 == |ch| ==> done + PieceSize(offset, buffer, done) == |buffer|
    ensures (offset + done) % BLOCK_SIZE + PieceSize(offset, buffer, done) <= BLOCK_SIZE
  {
  }

  lemma CopyingFits(v: Volume, reserved: seq<bool>, chains: seq<Chain>, s: nat, size: nat)
    requires Separated(v, reserved, chains) && s < |chains| && BlocksFor(size) <= |chains[s]|
    ensures Fits(v.data, chains[s], size)
  {
    InDataOf(v, reserved, chains, s);
  }

  lemma StepCopy(reserved: seq<bool>, a: System, s: nat, req: Request, done: nat)
    requires SystemInv(reserved, a) && s < |a.stages| && a.stages[s] == Copy(req, done)
    ensures Runnable(a, s) && Safe(reserved, a, Advance(a, s), s)
  {
    hide Separated, Elsewhere, Kept, Within, Disjoint, Fits, Splice, Pos, PieceSize;
    SlotIsLocated(reserved, a, s);
    var v, ch, k, n := a.v, a.chains[s], req.offset + done, PieceSize(req.offset, req.buffer, done);
    CopyingFits(v, reserved, a.chains, s, req.offset + |req.buffer|);
    CopyAddress(v.data, ch, req.offset, req.buffer, done);
    LastPiece(ch, req.offset, req.buffer, done);
    SameMapsSeparated(v, reserved, a.chains, Pos(ch, k), req.buffer[done..done + n]);
    PieceElsewhere(a, s, k, req.buffer[done..done + n], Advance(a, s).stages[s]);
    KeptPiece(a.bases[s].data, a.bases[s].chain, a.chains, s, v.data, req.offset, req.buffer, done, n);
    assert a.chains[s := a.chains[s]] == a.chains;
  }

  // ---------- arrivals ----------

  lemma QuietSized(node0: Node, ch0: Chain, data0: seq<byte>, node: Node, ch: Chain, data: seq<byte>, stage: Stage)
    requires SlotInv(node0, ch0, data0, node, ch, data, stage) && Quiet(stage) && BaseSized(Base(node0, ch0, data0))
    ensures BaseSized(Base(node, ch, data))
  {
    hide Kept, BlocksFor;
  }

  lemma KeptAsFound(data: seq<byte>, ch: Chain)
    requires Within(data, ch)
    ensures Kept(data, ch, data, ch, 0, [], 0)
  {
  }

  /** A request may arrive at any moment; what it finds becomes the base of its slot. */
  lemma ArrivalIsSafe(reserved: seq<bool>, a: System, s: nat, req: Request)
    requires SystemInv(reserved, a) && Welcome(a, s, req)
    ensures SystemInv(reserved, Arrive(a, s, req))
  {
    hide Separated, Kept, Within, BaseSized;
    InDataOf(a.v, reserved, a.chains, s);
    KeptAsFound(a.v.data, a.chains[s]);
    QuietSized(a.bases[s].node, a.bases[s].chain, a.bases[s].data, a.v.table[s], a.chains[s], a.v.data, a.stages[s]);
    var b := Arrive(a, s, req);
    forall t | 0 <= t < |b.stages|
      ensures BaseSized(b.bases[t]) && SlotInv(b.bases[t].node, b.bases[t].chain, b.bases[t].data, b.v.table[t], b.chains[t], b.v.data, b.stages[t]) {
      assert t != s ==> b.bases[t] == a.bases[t];
    }
  }

  // ---------- every step ----------

  /** No step is ever undefined, and every step is safe. */
  lemma StepIsSafe(reserved: seq<bool>, a: System, s: nat)
    requires SystemInv(reserved, a) && s < |a.stages| && !a.stages[s].Idle? && !a.stages[s].Done?
    ensures Runnable(a, s) && SystemInv(reserved, Advance(a, s))
  {
    hide SystemInv, Safe, Runnable, Advance;
    match a.stages[s] {
      case Ready(req) =>
        match req {
          case Write(_, _) => StepWriteBegin(reserved, a, s, req);
          case Truncate(_) => StepTruncateBegin(reserved, a, s, req);
          case Unlink => StepUnlinkBegin(reserved, a, s, req);
        }
      case FirstBlock(req, was) => StepFirstBlock(reserved, a, s, req, was);
      case Scan(req, was) => StepScan(reserved, a, s, req, was);
      case Undo(req, was) => StepUndo(reserved, a, s, req, was);
      case Copy(req, done) => StepCopy(reserved, a, s, req, done);
      case Release(req) => StepRelease(reserved, a, s, req);
      case Mark(req) => StepMark(reserved, a, s, req);
    }
    SafeKeeps(reserved, a, Advance(a, s), s);
  }
}
