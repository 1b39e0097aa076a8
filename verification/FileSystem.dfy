/** Whole requests, each of them an update of a map from nodes to bytes. */
module FileSystems {
  import opened Osada
  import opened Words
  import opened Names
  import opened Trees
  import opened TreeSafety
  import opened TreeLookup
  import opened Paths
  import opened TreeMeaning
  import opened Volumes
  import opened Contents
  import opened Allocation
  import opened Growth
  import opened Effects

  // Paths are resolved in the node table, blocks are moved in the store; every run keeps both in order.

  datatype Request =
    | TreeRequest(op: Op)
    | WriteRequest(names: seq<Name>, offset: uint32, buffer: seq<byte>)
    | TruncateRequest(names: seq<Name>, size: uint32)
    | UnlinkRequest(names: seq<Name>)

  datatype State = State(v: Volume, chains: seq<Chain>)

  // ---------- one request ----------

  ghost predicate SlotStep(s: State, slot: int, req: Request, code: Code, s': State) {
    match req
    case TreeRequest(_) => false
    case WriteRequest(_, offset, buffer) =>
      if buffer == [] then code == NoReply && s' == s && LiveFile(s.v, slot)
      else exists u :: WriteEffect(s.v, s.chains, slot, offset, buffer, code, u, s'.v, s'.chains)
    case TruncateRequest(_, size) => TruncateEffect(s.v, s.chains, slot, size, code, s'.v, s'.chains)
    case UnlinkRequest(_) => code == Sexe && UnlinkEffect(s.v, s.chains, slot, s'.v, s'.chains)
  }

  /** The file a request is about. */
  function Target(t: Table, req: Request): Found {
    match req
    case TreeRequest(_) => NotFound
    case WriteRequest(names, _, _) => Locate(t, names)
    case TruncateRequest(names, _) => Locate(t, names)
    case UnlinkRequest(names) => Locate(t, names)
  }

  ghost predicate TreeStep(s: State, op: Op, code: Code, s': State) {
    && TableOk(s.v.table) && Possible(op) && !op.UnlinkOp?
    && Outcome(s'.v.table, code) == Apply(s.v.table, op)
    && s' == State(s.v.(table := s'.v.table), s.chains)
  }

  /** A file request whose path is made of directories only is no step: the server goes on with a slot
      number it never set. */
  ghost predicate Step(s: State, req: Request, code: Code, s': State) {
    match req
    case TreeRequest(op) => TreeStep(s, op, code, s')
    case _ =>
      match Target(s.v.table, req)
      case NotFound => code == ENoEnt && s' == s
      case OnlyDirectories(_) => false
      case File(slot) => SlotStep(s, slot, req, code, s')
  }

  // ---------- the invariant ----------

  ghost predicate Sound(s: State, reserved: seq<bool>) {
    WellFormed(s.v, reserved, s.chains) && TableOk(s.v.table) && AllStop(s.v.table)
  }

  /** What a directory operation does to regular files: it keeps them, and adds empty ones. */
  ghost predicate FilesKept(t: Table, t': Table) {
    && |t'| == |t|
    && (forall s :: 0 <= s < |t| && t[s].state == Regular ==> t'[s].state == Regular && t'[s].fileSize == t[s].fileSize && t'[s].firstBlock == t[s].firstBlock)
    && (forall s :: 0 <= s < |t| && t[s].state != Regular && t'[s].state == Regular ==> t'[s].fileSize == 0 && t'[s].firstBlock == END_OF_FILE)
  }

  /** The same regular files in the same slots. */
  ghost predicate SameFiles(t: Table, t': Table) {
    && |t'| == |t|
    && (forall s :: 0 <= s < |t| ==> (t[s].state == Regular <==> t'[s].state == Regular))
    && (forall s :: 0 <= s < |t| && t[s].state == Regular ==> t'[s].fileSize == t[s].fileSize && t'[s].firstBlock == t[s].firstBlock)
  }

  lemma {:induction false} MkdirKeepsFiles(t: Table, names: seq<Name>, pb: int, junk: seq<byte>)
    requires |junk| == FILENAME_LENGTH && |t| <= ROOT && (pb == FULL || 0 <= pb < |t| || pb == ROOT)
    ensures SameFiles(t, MkdirFrom(t, names, pb, junk).table)
    decreases |names|
  {
    if names != [] {
      var d := SearchDir(t, names[0], pb, pb);
      if d != NONE {
        MkdirKeepsFiles(t, names[1..], d, junk);
      } else if |names[0]| <= FILENAME_LENGTH && pb != FULL {
        var s := FreeFrom(t, pb, 0);
        if s == NONE {
          MkdirKeepsFiles(t, names[1..], FULL, junk);
        } else {
          MkdirKeepsFiles(t[s := NewNode(Directory, names[0], pb, junk)], names[1..], s, junk);
        }
      }
    }
  }

  lemma TreeKeepsFiles(t: Table, op: Op)
    requires TableOk(t) && Possible(op) && !op.UnlinkOp?
    ensures FilesKept(t, Apply(t, op).table)
    ensures !op.MknodOp? ==> SameFiles(t, Apply(t, op).table)
  {
    hide Search, SearchFrom, FreeFrom, Fields;
    match op {
      case MkdirOp(names, junk) => MkdirKeepsFiles(t, names, ROOT, junk);
      case RmdirOp(names) =>
        WalkStays(t, names, ROOT, NONE);
        WalkHangs(t, names, ROOT, NONE, 0);
      case _ =>
    }
  }

  lemma FilesKeptWellFormed(v: Volume, reserved: seq<bool>, chains: seq<Chain>, t': Table)
    requires WellFormed(v, reserved, chains) && FilesKept(v.table, t')
    ensures WellFormed(v.(table := t'), reserved, chains)
  {
    forall s | 0 <= s < |chains| ensures ChainOk(t'[s], v.links, chains[s]) {
      assert ChainOk(v.table[s], v.links, chains[s]);
    }
  }

  /** Two tables with the same names under the same parents. */
  ghost predicate SameTree(t: Table, t': Table) {
    && |t'| == |t|
    && forall s :: 0 <= s < |t| ==> t'[s].state == t[s].state && t'[s].parent == t[s].parent && t'[s].fname == t[s].fname
  }

  lemma {:induction false} SameStops(t: Table, t': Table, s: int, k: nat)
    requires SameTree(t, t') && Stops(t, s, k)
    ensures Stops(t', s, k)
    decreases k
  {
    if Live(t, s) { SameStops(t, t', t[s].parent, k - 1); }
  }

  lemma {:induction false} SameHangs(t: Table, t': Table, s: int, k: nat)
    requires SameTree(t, t') && Hangs(t, s, k, NONE)
    ensures Hangs(t', s, k, NONE)
    decreases k
  {
    if s != ROOT { SameHangs(t, t', t[s].parent, k - 1); }
  }

  lemma SameTreeKeeps(t: Table, t': Table)
    requires SameTree(t, t') && TableOk(t)
    ensures TableOk(t')
    ensures AllStop(t) ==> AllStop(t')
    ensures Good(t) ==> Good(t')
  {
    hide NameOf, Nameable;
    if AllStop(t) {
      forall s | 0 <= s < |t'| ensures ClimbEnds(t', s) {
        assert ClimbEnds(t, s);
        var k: nat :| Stops(t, s, k);
        SameStops(t, t', s, k);
      }
    }
    if Good(t) { SameTreeGood(t, t'); }
  }

  lemma SameTreeGood(t: Table, t': Table)
    requires SameTree(t, t') && Good(t)
    ensures Good(t')
  {
    hide NameOf, Nameable;
    forall s | Live(t', s) ensures Rooted(t', s) {
      assert Live(t, s) && Rooted(t, s);
      var k: nat :| Hangs(t, s, k, NONE);
      SameHangs(t, t', s, k);
    }
    forall s, u | Live(t', s) && Live(t', u) && NameOf(t'[s].fname) == NameOf(t'[u].fname) && t'[s].parent == t'[u].parent
      ensures s == u {
      assert Live(t, s) && Live(t, u);
    }
    forall s | Live(t', s) ensures Nameable(NameOf(t'[s].fname)) {
      assert Live(t, s);
    }
  }

  // ---------- file requests leave the tree alone ----------

  lemma GrowSameTree(v: Volume, chains: seq<Chain>, slot: int, size: uint32, room: bool, ok: bool, w: Volume, chains': seq<Chain>)
    requires GrowEffect(v, chains, slot, size, room, ok, w, chains')
    ensures SameTree(v.table, w.table)
  {
    if ok {
      AppendAllTable(Resize(v, slot, size), slot, chains[slot], NewBlocks(v, chains[slot], size));
    } else {
      UndoneTable(v, w, NewBlocks(v, chains[slot], size));
    }
  }

  lemma WriteSameTree(s: State, slot: int, offset: nat, buffer: seq<byte>, code: Code, u: Volume, s': State)
    requires WriteEffect(s.v, s.chains, slot, offset, buffer, code, u, s'.v, s'.chains)
    ensures SameTree(s.v.table, s'.v.table)
  {
    hide GrowEffect, RoomFor, Copied;
    if offset + |buffer| > s.v.table[slot].fileSize {
      GrowSameTree(s.v, s.chains, slot, offset + |buffer|, RoomFor(s.v, s.chains[slot], offset + |buffer|), code == Sexe, u, s'.chains);
    }
    if code == Sexe { CopiedSameMaps(u, s'.v, s'.chains[slot], offset, buffer, |buffer|); }
  }

  lemma TruncateSameTree(s: State, slot: int, size: uint32, code: Code, s': State)
    requires TruncateEffect(s.v, s.chains, slot, size, code, s'.v, s'.chains)
    ensures SameTree(s.v.table, s'.v.table)
  {
    hide GrowEffect, TruncateRoom;
    if size > s.v.table[slot].fileSize && BlocksFor(size) > |s.chains[slot]| {
      GrowSameTree(s.v, s.chains, slot, size, TruncateRoom(s.v, s.chains[slot], size), code == Sexe, s'.v, s'.chains);
    }
  }

  lemma UnlinkSameTree(s: State, slot: int, s': State)
    requires UnlinkEffect(s.v, s.chains, slot, s'.v, s'.chains)
    ensures SameTree(Removed(s.v.table, slot), s'.v.table)
  {
  }

  /** The tree after a file request on `slot`: as before, or without the node. */
  function TreeAfter(t: Table, slot: int, req: Request): Table {
    if req.UnlinkRequest? && 0 <= slot < |t| then Removed(t, slot) else t
  }

  lemma SlotTree(s: State, slot: int, req: Request, code: Code, s': State)
    requires SlotStep(s, slot, req, code, s')
    ensures LiveFile(s.v, slot) && SameTree(TreeAfter(s.v.table, slot, req), s'.v.table)
  {
    hide SameTree;
    match req {
      case WriteRequest(_, offset, buffer) =>
        if buffer == [] {
          SameTreeSelf(s.v.table);
        } else {
          var u :| WriteEffect(s.v, s.chains, slot, offset, buffer, code, u, s'.v, s'.chains);
          WriteSameTree(s, slot, offset, buffer, code, u, s');
        }
      case TruncateRequest(_, size) => TruncateSameTree(s, slot, size, code, s');
      case UnlinkRequest(_) => UnlinkSameTree(s, slot, s');
    }
  }

  lemma SameTreeSelf(t: Table)
    ensures SameTree(t, t)
  {
  }

  // ---------- the map from nodes to bytes ----------

  /** The content of every regular file, by slot. */
  ghost function Files(s: State, reserved: seq<bool>): map<int, seq<byte>>
    requires WellFormed(s.v, reserved, s.chains)
  {
    map t | 0 <= t < |s.v.table| && LiveFile(s.v, t) :: FileBytes(s.v, reserved, s.chains, t)
  }

  /** The path a file request names. */
  function PathOf(req: Request): seq<Name> {
    match req
    case TreeRequest(_) => []
    case WriteRequest(names, _, _) => names
    case TruncateRequest(names, _) => names
    case UnlinkRequest(names) => names
  }

  /** Names as `strtok` cuts them out of a C string. */
  predicate Sendable(names: seq<Name>) {
    forall i :: 0 <= i < |names| ==> Nameable(names[i])
  }

  /** What mknod means: a new empty file with that path, or nothing. */
  ghost predicate MknodServes(t: Table, files: map<int, seq<byte>>, names: seq<Name>, code: Code, t': Table, files': map<int, seq<byte>>) {
    if code == IsReg && WalkDirs(t, names, ROOT, NONE).1 < |names|
    then exists s :: (Sendable(names) ==> IsNewFile(t, t', s, names)) && s !in files && files' == files[s := []]
    else t' == t && files' == files
  }

  /** What a request means for the files. A file request acts on the file whose path it names; of the
      directory requests only mknod makes a file, and none takes one away or changes its bytes. */
  ghost predicate Serves(t: Table, files: map<int, seq<byte>>, req: Request, code: Code, t': Table, files': map<int, seq<byte>>) {
    var target := Target(t, req);
    if req.TreeRequest? then
      if req.op.MknodOp? then MknodServes(t, files, req.op.names, code, t', files') else files' == files
    else if !target.File? then
      code == ENoEnt && files' == files
    else
      var slot := target.slot;
      slot in files && Spells(t, slot, PathOf(req)) &&
      match req
      case UnlinkRequest(_) => code == Sexe && files' == files - {slot}
      case WriteRequest(_, offset, buffer) =>
        slot in files' && files' == files[slot := files'[slot]] &&
        (if buffer == [] then code == NoReply && files' == files
         else if code == Sexe then Overwritten(files[slot], files'[slot], offset, buffer)
         else code == ENoSpc && files' == files)
      case TruncateRequest(_, size) =>
        slot in files' && files' == files[slot := files'[slot]] &&
        (if code == Sexe then Retained(files[slot], files'[slot], size) else code == ENoSpc && files' == files)
      case TreeRequest(_) => true
  }

  /** The others the same, and the one at `slot` still there: one entry of the map changes. */
  lemma OneEntryChanges(s: State, s': State, reserved: seq<bool>, slot: int)
    requires WellFormed(s.v, reserved, s.chains) && WellFormed(s'.v, reserved, s'.chains)
    requires OthersSame(s.v, s.chains, s'.v, s'.chains, reserved, slot) && LiveFile(s.v, slot)
    ensures LiveFile(s'.v, slot) ==>
      slot in Files(s', reserved) && Files(s', reserved) == Files(s, reserved)[slot := Files(s', reserved)[slot]]
    ensures !LiveFile(s'.v, slot) ==> Files(s', reserved) == Files(s, reserved) - {slot}
  {
    hide WellFormed, FileBytes;
    var f, f' := Files(s, reserved), Files(s', reserved);
    forall t | t != slot ensures t in f' <==> t in f {
      assert 0 <= t < |s.v.table| ==> (LiveFile(s.v, t) <==> LiveFile(s'.v, t));
    }
  }

  lemma SlotServes(s: State, reserved: seq<bool>, slot: int, req: Request, code: Code, s': State)
    requires WellFormed(s.v, reserved, s.chains) && SlotStep(s, slot, req, code, s')
    requires Target(s.v.table, req) == File(slot) && |s.v.table| <= ROOT
    ensures WellFormed(s'.v, reserved, s'.chains)
    ensures Serves(s.v.table, Files(s, reserved), req, code, s'.v.table, Files(s', reserved))
  {
    hide WellFormed, FileBytes, OthersSame, WriteEffect, TruncateEffect, UnlinkEffect, Overwritten, Retained, Locate, Spells;
    LocateSpells(s.v.table, PathOf(req));
    SlotTree(s, slot, req, code, s');
    match req {
      case WriteRequest(_, offset, buffer) =>
        if buffer == [] {
          EntryItself(Files(s, reserved), slot);
        } else {
          var u :| WriteEffect(s.v, s.chains, slot, offset, buffer, code, u, s'.v, s'.chains);
          WriteMeans(s.v, reserved, s.chains, slot, offset, buffer, code, u, s'.v, s'.chains);
          WriteCodes(s, slot, offset, buffer, code, u, s');
          OneEntryChanges(s, s', reserved, slot);
          if code != Sexe { EntryItself(Files(s, reserved), slot); }
        }
      case TruncateRequest(_, size) =>
        TruncateMeans(s.v, reserved, s.chains, slot, size, code, s'.v, s'.chains);
        TruncateInPlace(s.v, s.chains, slot, size, code, s'.v, s'.chains);
        OneEntryChanges(s, s', reserved, slot);
        if code != Sexe { EntryItself(Files(s, reserved), slot); }
      case UnlinkRequest(_) =>
        UnlinkMeans(s.v, reserved, s.chains, slot, s'.v, s'.chains);
        OneEntryChanges(s, s', reserved, slot);
    }
  }

  lemma WriteCodes(s: State, slot: int, offset: nat, buffer: seq<byte>, code: Code, u: Volume, s': State)
    requires WriteEffect(s.v, s.chains, slot, offset, buffer, code, u, s'.v, s'.chains)
    ensures code in {Sexe, ENoSpc}
  {
  }

  lemma EntryItself(files: map<int, seq<byte>>, slot: int)
    requires slot in files
    ensures files[slot := files[slot]] == files
  {
  }

  lemma TreeServes(s: State, reserved: seq<bool>, op: Op, code: Code, s': State)
    requires WellFormed(s.v, reserved, s.chains) && TreeStep(s, op, code, s')
    ensures WellFormed(s'.v, reserved, s'.chains)
    ensures Serves(s.v.table, Files(s, reserved), TreeRequest(op), code, s'.v.table, Files(s', reserved))
  {
    hide Apply, Possible, Fields, WalkDirs, IsNewFile;
    TreeKeepsFiles(s.v.table, op);
    FilesKeptWellFormed(s.v, reserved, s.chains, s'.v.table);
    FilesKeptBytes(s, reserved, s');
    if op.MknodOp? {
      MknodStep(s, op, code, s');
      if code == IsReg && WalkDirs(s.v.table, op.names, ROOT, NONE).1 < |op.names| {
        var f := NewFile(s.v.table, op.names, op.junk);
        OneFileMore(s, reserved, f, s');
      } else {
        MknodNothing(s.v.table, op.names, op.junk);
      }
    } else {
      NoFileMore(s, reserved, s');
    }
  }

  lemma MknodStep(s: State, op: Op, code: Code, s': State)
    requires TreeStep(s, op, code, s') && op.MknodOp?
    ensures |op.junk| == FILENAME_LENGTH && |s.v.table| <= ROOT && Outcome(s'.v.table, code) == Mknod(s.v.table, op.names, op.junk)
    ensures s' == State(s.v.(table := s'.v.table), s.chains)
  {
  }

  /** The slot mknod takes. */
  lemma NewFile(t: Table, names: seq<Name>, junk: seq<byte>) returns (f: int)
    requires |junk| == FILENAME_LENGTH && |t| <= ROOT
    requires Mknod(t, names, junk).code == IsReg && WalkDirs(t, names, ROOT, NONE).1 < |names|
    ensures var t' := Mknod(t, names, junk).table;
      && OnlyAt(t, t', f) && t[f].state == Deleted && t'[f].state == Regular && t'[f].fileSize == 0
      && (Sendable(names) ==> IsNewFile(t, t', f, names))
  {
    hide WalkDirs, NameOf, Spells, FreeFrom;
    var (d, n) := WalkDirs(t, names, ROOT, NONE);
    WalkFromRoot(t, names);
    WalkStays(t, names, ROOT, NONE);
    f := FreeFrom(t, d, 0);
    FreeIsFirst(t, d);
    if Sendable(names) { NameSurvives(junk, names[n]); }
  }

  lemma MknodNothing(t: Table, names: seq<Name>, junk: seq<byte>)
    requires |junk| == FILENAME_LENGTH && |t| <= ROOT
    requires Mknod(t, names, junk).code != IsReg || WalkDirs(t, names, ROOT, NONE).1 == |names|
    ensures Mknod(t, names, junk).table == t
  {
  }

  lemma OneFileMore(s: State, reserved: seq<bool>, f: int, s': State)
    requires WellFormed(s.v, reserved, s.chains) && WellFormed(s'.v, reserved, s'.chains)
    requires OnlyAt(s.v.table, s'.v.table, f) && s.v.table[f].state == Deleted && s'.v.table[f].state == Regular && s'.v.table[f].fileSize == 0
    requires forall t :: t in Files(s', reserved) && t in Files(s, reserved) ==> Files(s', reserved)[t] == Files(s, reserved)[t]
    ensures f !in Files(s, reserved) && Files(s', reserved) == Files(s, reserved)[f := []]
  {
    hide WellFormed, FileBytes;
    FileSize(s', reserved, f);
    var a, b := Files(s, reserved), Files(s', reserved);
    forall t | t != f ensures t in b <==> t in a {
      assert 0 <= t < |s.v.table| ==> s'.v.table[t] == s.v.table[t];
    }
    assert b[f] == [];
  }

  lemma NoFileMore(s: State, reserved: seq<bool>, s': State)
    requires WellFormed(s.v, reserved, s.chains) && WellFormed(s'.v, reserved, s'.chains) && SameFiles(s.v.table, s'.v.table)
    requires forall t :: t in Files(s', reserved) && t in Files(s, reserved) ==> Files(s', reserved)[t] == Files(s, reserved)[t]
    ensures Files(s', reserved) == Files(s, reserved)
  {
    hide WellFormed, FileBytes;
  }

  lemma FilesKeptBytes(s: State, reserved: seq<bool>, s': State)
    requires WellFormed(s.v, reserved, s.chains) && WellFormed(s'.v, reserved, s'.chains)
    requires FilesKept(s.v.table, s'.v.table) && s' == State(s.v.(table := s'.v.table), s.chains)
    ensures forall t :: t in Files(s', reserved) && t in Files(s, reserved) ==> Files(s', reserved)[t] == Files(s, reserved)[t]
  {
    hide WellFormed, FileBytes;
    forall t | t in Files(s', reserved) && t in Files(s, reserved) ensures Files(s', reserved)[t] == Files(s, reserved)[t] {
      BytesSame(s.v, s.chains, s'.v, s'.chains, reserved, t);
    }
  }

  lemma FileSize(s: State, reserved: seq<bool>, slot: int)
    requires WellFormed(s.v, reserved, s.chains) && LiveFile(s.v, slot)
    ensures |FileBytes(s.v, reserved, s.chains, slot)| == s.v.table[slot].fileSize
  {
  }

  /** A request keeps the volume well formed and the tree acyclic, and does to the files what it means. */
  lemma StepServes(s: State, reserved: seq<bool>, req: Request, code: Code, s': State)
    requires Sound(s, reserved) && Step(s, req, code, s')
    ensures Sound(s', reserved) && Serves(s.v.table, Files(s, reserved), req, code, s'.v.table, Files(s', reserved))
  {
    hide WellFormed, AllStop, Fields, Files, FileBytes, Serves, Apply, SlotStep, Locate, SameTree;
    match req {
      case TreeRequest(op) =>
        TreeServes(s, reserved, op, code, s');
        FieldsKept(s.v.table, op);
        ApplyKeeps(s.v.table, op);
      case _ =>
        match Target(s.v.table, req) {
          case NotFound => NothingServed(s, reserved, req, s');
          case File(slot) =>
            SlotServes(s, reserved, slot, req, code, s');
            SlotTree(s, slot, req, code, s');
            if req.UnlinkRequest? { RemoveKeeps(s.v.table, slot); }
            TreeAfterOk(s.v.table, slot, req);
            SameTreeKeeps(TreeAfter(s.v.table, slot, req), s'.v.table);
        }
    }
  }

  lemma NothingServed(s: State, reserved: seq<bool>, req: Request, s': State)
    requires WellFormed(s.v, reserved, s.chains) && !req.TreeRequest? && Target(s.v.table, req) == NotFound
    ensures Serves(s.v.table, Files(s, reserved), req, ENoEnt, s.v.table, Files(s, reserved))
  {
  }

  lemma TreeAfterOk(t: Table, slot: int, req: Request)
    requires TableOk(t) && 0 <= slot < |t|
    ensures TableOk(TreeAfter(t, slot, req))
  {
  }
}
