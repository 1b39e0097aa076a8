/** Requests on different files at once, section by section. */
module Interleaving {
  import opened Osada
  import opened Words
  import opened Volumes
  import opened Allocation
  import opened Contents
  import opened Growth
  import opened Effects

  // Each section under `m_lock` is one step, so is each piece copied; what an operation does between two
  // steps touches its own node and chain only.

  datatype Request = Write(offset: nat, buffer: seq<byte>) | Truncate(size: uint32) | Unlink

  /** How far the request on a slot has come; `was` is the size the operation found. */
  datatype Stage =
    | Idle
    | Ready(req: Request)
    | FirstBlock(req: Request, was: uint32)   // size recorded, the empty file has no block yet
    | Scan(req: Request, was: uint32)         // the extension scan comes next
    | Undo(req: Request, was: uint32)         // the scan ran out; the roll-back comes next
    | Copy(req: Request, done: nat)           // `done` bytes of the request are written
    | Release(req: Request)                   // a truncate is about to release the tail
    | Mark(req: Request)                      // unlinked chain released, node not yet marked
    | Done(req: Request, code: Code)

  /** A file as its request found it on arrival: node, chain and data area. */
  datatype Base = Base(node: Node, chain: Chain, data: seq<byte>)

  datatype System = System(v: Volume, chains: seq<Chain>, stages: seq<Stage>, bases: seq<Base>)

  function BaseOf(a: System, s: nat): Base
    requires s < |a.chains| == |a.v.table|
  {
    Base(a.v.table[s], a.chains[s], a.v.data)
  }

  /** Nothing is under way on the slot. */
  predicate Quiet(stage: Stage) {
    stage.Idle? || stage.Done?
  }

  /** A request can arrive for any file without one under way. */
  predicate Welcome(a: System, s: int, req: Request) {
    0 <= s < |a.chains| == |a.stages| == |a.bases| == |a.v.table| && Quiet(a.stages[s]) && LiveFile(a.v, s) && Serviceable(req)
  }

  function Arrive(a: System, s: nat, req: Request): System
    requires Welcome(a, s, req)
  {
    System(a.v, a.chains, a.stages[s := Ready(req)], a.bases[s := BaseOf(a, s)])
  }

  // ---------- one step of one slot ----------

  function With(a: System, s: nat, v: Volume, ch: Chain, stage: Stage): System
    requires s < |a.chains| == |a.stages|
  {
    System(v, a.chains[s := ch], a.stages[s := stage], a.bases)
  }

  /** The blocks the scan of a write asks for: bytes missing beyond the last block of the chain. */
  function WriteNeed(size: nat, was: nat, ch: Chain): nat {
    Units(size - was - (BLOCK_SIZE - (was - (|ch| - 1) * BLOCK_SIZE)), BLOCK_SIZE)
  }

  function ScanNeed(req: Request, size: nat, was: nat, ch: Chain): nat {
    if req.Write? then WriteNeed(size, was, ch)
    else if BlocksFor(size) > |ch| then BlocksFor(size) - |ch| else 0
  }

  function PieceSize(offset: nat, buffer: seq<byte>, done: nat): nat
    requires done <= |buffer|
  {
    var room := BLOCK_SIZE - (offset + done) % BLOCK_SIZE;
    if |buffer| - done >= room then room else |buffer| - done
  }

  /** Requests without bytes are dropped on receipt, and a request ends below 2 GiB. */
  predicate Serviceable(req: Request) {
    req.Write? ==> req.buffer != [] && req.offset + |req.buffer| < 0x8000_0000
  }

  predicate Located(a: System, s: int) {
    && 0 <= s < |a.chains| == |a.stages| == |a.v.table|
    && |a.v.links| == |a.v.bits| < END_OF_FILE
    && InBounds(a.chains[s], |a.v.links|)
  }

  /** A step is defined: every pointer it follows lies within the mapping table and the data area. */
  predicate Runnable(a: System, s: int) {
    && Located(a, s)
    && match a.stages[s]
       case Idle => false
       case Done(_, _) => false
       case Undo(_, was) => BlocksFor(was) <= |a.chains[s]|
       case Release(req) => req.Truncate? && BlocksFor(req.size) <= |a.chains[s]|
       case Copy(req, done) => req.Write? && done < |req.buffer| && Fits(a.v.data, a.chains[s], req.offset + |req.buffer|)
       case Ready(req) => Serviceable(req)
       case _ => true
  }

  function Begin(a: System, s: nat, req: Request): System
    requires Located(a, s) && Serviceable(req)
  {
    var ch, was := a.chains[s], a.v.table[s].fileSize;
    match req
    case Write(offset, buffer) =>
      if offset + |buffer| > was
      then With(a, s, Resize(a.v, s, offset + |buffer|), ch,
                if a.v.table[s].firstBlock == END_OF_FILE then FirstBlock(req, was) else Scan(req, was))
      else With(a, s, a.v, ch, Copy(req, 0))
    case Truncate(size) =>
      With(a, s, Resize(a.v, s, size), ch,
           if size > was && BlocksFor(size) > |ch| then Scan(req, was)
           else if size < was && BlocksFor(size) < |ch| then Release(req)
           else Done(req, Sexe))
    case Unlink =>
      With(a, s, Cut(a.v, s, ch, 0), [], Mark(req))
  }

  function Advance(a: System, s: nat): System
    requires Runnable(a, s)
  {
    var v, ch := a.v, a.chains[s];
    match a.stages[s]
    case Ready(req) => Begin(a, s, req)
    case FirstBlock(req, was) =>
      if Wanted(v, 1) == [] then With(a, s, Resize(v, s, was), ch, Done(req, ENoSpc))
      else With(a, s, Extended(v, s, ch, 1), ch + Wanted(v, 1), Scan(req, was))
    case Scan(req, was) =>
      var need := ScanNeed(req, v.table[s].fileSize, was, ch);
      With(a, s, Extended(v, s, ch, need), ch + Wanted(v, need),
           if ScanStop(v.bits, 0, need) >= |v.bits| then Undo(req, was)
           else if req.Write? then Copy(req, 0) else Done(req, Sexe))
    case Undo(req, was) =>
      With(a, s, Cut(Resize(v, s, was), s, ch, BlocksFor(was)), ch[..BlocksFor(was)], Done(req, ENoSpc))
    case Copy(req, done) =>
      var k, n := req.offset + done, PieceSize(req.offset, req.buffer, done);
      CopyAddress(v.data, ch, req.offset, req.buffer, done);
      With(a, s, CopiedData(v, Pos(ch, k), req.buffer[done..done + n]), ch,
           if k / BLOCK_SIZE + 1 == |ch| || done + n == |req.buffer| then Done(req, Sexe) else Copy(req, done + n))
    case Release(req) =>
      With(a, s, Cut(v, s, ch, BlocksFor(req.size)), ch[..BlocksFor(req.size)], Done(req, Sexe))
    case Mark(req) => With(a, s, Deleting(v, s), ch, Done(req, Sexe))
  }

  lemma CopyAddress(data: seq<byte>, ch: Chain, offset: nat, buffer: seq<byte>, done: nat)
    requires done < |buffer| && Fits(data, ch, offset + |buffer|)
    ensures (offset + done) / BLOCK_SIZE < |ch|
    ensures Pos(ch, offset + done) + PieceSize(offset, buffer, done) <= |data|
    ensures 0 < PieceSize(offset, buffer, done) <= |buffer| - done
  {
  }

  // ---------- what holds of every slot at every moment ----------

  function Buffer(req: Request): seq<byte> { if req.Write? then req.buffer else [] }

  /** The size the request works towards. */
  function Target(req: Request, was: nat): nat {
    match req
    case Write(offset, buffer) => if offset + |buffer| > was then offset + |buffer| else was
    case Truncate(size) => size
    case Unlink => was
  }

  /** The bytes of the old chain that the new chain still covers are the old ones, except for the first
      `done` bytes of the request, which are in place. */
  ghost predicate Kept(data0: seq<byte>, ch0: Chain, data: seq<byte>, ch: Chain, offset: nat, buffer: seq<byte>, done: nat) {
    && done <= |buffer|
    && Within(data0, ch0) && Within(data, ch)
    && (forall k :: 0 <= k && k / BLOCK_SIZE < |ch| && offset <= k < offset + done ==> data[Pos(ch, k)] == buffer[k - offset])
    && (forall k :: 0 <= k && k / BLOCK_SIZE < |ch| && k / BLOCK_SIZE < |ch0| && !(offset <= k < offset + done)
          ==> data[Pos(ch, k)] == data0[Pos(ch0, k)])
  }

  predicate NodeIs(node0: Node, node: Node, state: NodeState, size: nat) {
    node.state == state && node.fileSize == size && node.fname == node0.fname && node.parent == node0.parent
  }

  /** The slot's own part of the invariant, against what its request found on arrival. */
  ghost predicate SlotInv(node0: Node, ch0: Chain, data0: seq<byte>, node: Node, ch: Chain, data: seq<byte>, stage: Stage) {
    match stage
    case Idle => node == node0 && ch == ch0 && Kept(data0, ch0, data, ch, 0, [], 0)
    case Ready(req) => Serviceable(req) && node0.state == Regular && node == node0 && ch == ch0 && Kept(data0, ch0, data, ch, 0, [], 0)
    case FirstBlock(req, was) =>
      && Enlarging(req, was, node0, node, data0, ch0, data, ch) && req.Write? && ch == ch0 == []
    case Scan(req, was) =>
      && Enlarging(req, was, node0, node, data0, ch0, data, ch)
      && |ch| <= BlocksFor(node.fileSize)
      && (if req.Write? then |ch| == (if ch0 == [] then 1 else |ch0|) else ch == ch0)
    case Undo(req, was) =>
      && Enlarging(req, was, node0, node, data0, ch0, data, ch)
    case Copy(req, done) => Copying(req, done, node0, node, data0, ch0, data, ch) && done < |req.buffer|
    case Release(req) =>
      && node0.state == Regular && NodeIs(node0, node, Regular, Target(req, node0.fileSize)) && ch == ch0
      && req.Truncate? && BlocksFor(req.size) <= |ch| && Kept(data0, ch0, data, ch, 0, [], 0)
    case Mark(req) => req.Unlink? && node0.state == Regular && NodeIs(node0, node, Regular, node0.fileSize) && ch == []
    case Done(req, code) => Finished(req, code, node0, node, data0, ch0, data, ch)
  }

  ghost predicate Enlarging(req: Request, was: nat, node0: Node, node: Node, data0: seq<byte>, ch0: Chain, data: seq<byte>, ch: Chain) {
    && Serviceable(req) && !req.Unlink? && node0.state == Regular && was == node0.fileSize < Target(req, was)
    && NodeIs(node0, node, Regular, Target(req, was))
    && ch0 <= ch && Kept(data0, ch0, data, ch, 0, [], 0)
  }

  ghost predicate Copying(req: Request, done: nat, node0: Node, node: Node, data0: seq<byte>, ch0: Chain, data: seq<byte>, ch: Chain) {
    && Serviceable(req) && req.Write? && node0.state == Regular && done <= |req.buffer|
    && NodeIs(node0, node, Regular, Target(req, node0.fileSize))
    && ch0 <= ch && |ch| == BlocksFor(node.fileSize)
    && Kept(data0, ch0, data, ch, req.offset, req.buffer, done)
  }

  /** A finished request has had its effect, or none at all when space ran out. */
  ghost predicate Finished(req: Request, code: Code, node0: Node, node: Node, data0: seq<byte>, ch0: Chain, data: seq<byte>, ch: Chain) {
    && Serviceable(req) && node0.state == Regular && code in {Sexe, ENoSpc}
    && if code == ENoSpc
       then !req.Unlink? && NodeIs(node0, node, Regular, node0.fileSize) && ch == ch0 && Kept(data0, ch0, data, ch, 0, [], 0)
       else match req
         case Write(_, buffer) => Copying(req, |buffer|, node0, node, data0, ch0, data, ch)
         case Truncate(size) =>
           && NodeIs(node0, node, Regular, size) && |ch| == BlocksFor(size) && (ch0 <= ch || ch <= ch0)
           && Kept(data0, ch0, data, ch, 0, [], 0)
         case Unlink => NodeIs(node0, node, Deleted, node0.fileSize) && ch == []
  }

  predicate BaseSized(base: Base) {
    base.node.state == Regular ==> |base.chain| == BlocksFor(base.node.fileSize)
  }

  /** The invariant, at every moment, whatever requests are under way. */
  ghost predicate SystemInv(reserved: seq<bool>, a: System) {
    && Separated(a.v, reserved, a.chains)
    && |a.stages| == |a.v.table| == |a.bases| == |a.chains|
    && forall s :: 0 <= s < |a.stages| ==>
         BaseSized(a.bases[s]) &&
         SlotInv(a.bases[s].node, a.bases[s].chain, a.bases[s].data, a.v.table[s], a.chains[s], a.v.data, a.stages[s])
  }
}
