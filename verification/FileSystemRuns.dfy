/** Whole runs of the file system, from a freshly formatted volume on. */
module FileSystemRuns {
  import opened Osada
  import opened Words
  import opened Names
  import opened Trees
  import opened TreeSafety
  import opened TreeLookup
  import opened Paths
  import opened TreeMeaning
  import opened MkdirClaims
  import opened Volumes
  import opened Contents
  import opened Effects
  import opened FileSystems

  /** A run: one state more than there are requests and replies. */
  ghost predicate IsRun(states: seq<State>, reqs: seq<Request>, codes: seq<Code>) {
    && |states| == |reqs| + 1 && |codes| == |reqs|
    && forall i :: 0 <= i < |reqs| ==> Step(states[i], reqs[i], codes[i], states[i + 1])
  }

  /** At every point of a run the volume is well formed and the tree acyclic. */
  lemma {:induction false} RunsStaySound(states: seq<State>, reqs: seq<Request>, codes: seq<Code>, reserved: seq<bool>, i: nat)
    requires IsRun(states, reqs, codes) && Sound(states[0], reserved) && i < |states|
    ensures Sound(states[i], reserved) && Acyclic(states[i].v.table)
  {
    hide Sound, Step;
    if i > 0 {
      RunsStaySound(states, reqs, codes, reserved, i - 1);
      assert Step(states[i - 1], reqs[i - 1], codes[i - 1], states[i - 1 + 1]);
      StepServes(states[i - 1], reserved, reqs[i - 1], codes[i - 1], states[i]);
    }
    SoundIsAcyclic(states[i], reserved);
  }

  lemma SoundIsAcyclic(s: State, reserved: seq<bool>)
    requires Sound(s, reserved)
    ensures Acyclic(s.v.table)
  {
    StoppingIsAcyclic(s.v.table);
  }

  lemma SoundIsWellFormed(s: State, reserved: seq<bool>)
    requires Sound(s, reserved)
    ensures WellFormed(s.v, reserved, s.chains)
  {
  }

  /** Every request of a run does to the files just what it means, whatever the blocks. */
  lemma RunsServe(states: seq<State>, reqs: seq<Request>, codes: seq<Code>, reserved: seq<bool>, i: nat)
    requires IsRun(states, reqs, codes) && Sound(states[0], reserved) && i < |reqs|
    ensures WellFormed(states[i].v, reserved, states[i].chains) && WellFormed(states[i + 1].v, reserved, states[i + 1].chains)
    ensures Serves(states[i].v.table, Files(states[i], reserved), reqs[i], codes[i], states[i + 1].v.table, Files(states[i + 1], reserved))
  {
    hide Step, Sound, WellFormed, Serves, Files;
    RunsStaySound(states, reqs, codes, reserved, i);
    StepServes(states[i], reserved, reqs[i], codes[i], states[i + 1]);
    SoundIsWellFormed(states[i], reserved);
    SoundIsWellFormed(states[i + 1], reserved);
  }

  /** In a run a write or a truncate answers that the device is full exactly when it lacks the blocks. */
  lemma RunsFindRoom(states: seq<State>, reqs: seq<Request>, codes: seq<Code>, reserved: seq<bool>, slot: int, i: nat)
    requires IsRun(states, reqs, codes) && Sound(states[0], reserved) && i < |reqs| && Target(states[i].v.table, reqs[i]) == File(slot)
    ensures LiveFile(states[i].v, slot)
    ensures reqs[i].WriteRequest? && reqs[i].buffer != [] ==>
      (codes[i] == ENoSpc <==> !WriteFits(states[i].v, slot, reqs[i].offset + |reqs[i].buffer|))
    ensures reqs[i].TruncateRequest? ==> (codes[i] == ENoSpc <==> !TruncateFits(states[i].v, slot, reqs[i].size))
  {
    hide Sound, WellFormed, Locate, WriteFits, TruncateFits, WriteEffect, TruncateEffect, UnlinkEffect;
    RunsStaySound(states, reqs, codes, reserved, i);
    SoundIsWellFormed(states[i], reserved);
    assert Step(states[i], reqs[i], codes[i], states[i + 1]);
    SlotFindsRoom(states[i], reserved, slot, reqs[i], codes[i], states[i + 1]);
  }

  lemma SlotFindsRoom(s: State, reserved: seq<bool>, slot: int, req: Request, code: Code, s': State)
    requires WellFormed(s.v, reserved, s.chains) && SlotStep(s, slot, req, code, s')
    ensures LiveFile(s.v, slot)
    ensures req.WriteRequest? && req.buffer != [] ==> (code == ENoSpc <==> !WriteFits(s.v, slot, req.offset + |req.buffer|))
    ensures req.TruncateRequest? ==> (code == ENoSpc <==> !TruncateFits(s.v, slot, req.size))
  {
    hide WellFormed, WriteFits, TruncateFits, WriteEffect, TruncateEffect, UnlinkEffect;
    SlotIsLive(s, slot, req, code, s');
    match req {
      case WriteRequest(_, offset, buffer) =>
        if buffer != [] {
          var u :| WriteEffect(s.v, s.chains, slot, offset, buffer, code, u, s'.v, s'.chains);
          WriteFindsRoomIff(s.v, reserved, s.chains, slot, offset, buffer, code, u, s'.v, s'.chains);
        }
      case TruncateRequest(_, size) =>
        TruncateFindsRoomIff(s.v, reserved, s.chains, slot, size, code, s'.v, s'.chains);
      case _ =>
    }
  }

  lemma SlotIsLive(s: State, slot: int, req: Request, code: Code, s': State)
    requires SlotStep(s, slot, req, code, s')
    ensures LiveFile(s.v, slot) && code in {Sexe, ENoSpc, NoReply} && !req.TreeRequest?
    ensures code == NoReply ==> req.WriteRequest? && req.buffer == []
  {
    hide GrowEffect, Copied, Cut, TruncateRoom;
  }

  /** A file that no request targets from step `i` to step `j` still has the bytes it had. */
  lemma {:induction false} UntouchedStays(states: seq<State>, reqs: seq<Request>, codes: seq<Code>, reserved: seq<bool>, slot: int, i: nat, j: nat)
    requires IsRun(states, reqs, codes) && Sound(states[0], reserved) && i <= j < |states|
    requires forall k :: i <= k < j ==> Target(states[k].v.table, reqs[k]) != File(slot)
    ensures WellFormed(states[i].v, reserved, states[i].chains) && WellFormed(states[j].v, reserved, states[j].chains)
    ensures slot in Files(states[i], reserved) ==>
      slot in Files(states[j], reserved) && Files(states[j], reserved)[slot] == Files(states[i], reserved)[slot]
    decreases j - i
  {
    hide Step, Sound, WellFormed, Files, Overwritten, Retained, Locate;
    RunsStaySound(states, reqs, codes, reserved, i);
    SoundIsWellFormed(states[i], reserved);
    if i < j {
      UntouchedStays(states, reqs, codes, reserved, slot, i, j - 1);
      RunsServe(states, reqs, codes, reserved, j - 1);
    }
  }

  /** The bytes of the last successful write to a file are what it holds there ever after. */
  lemma LastWriteStands(states: seq<State>, reqs: seq<Request>, codes: seq<Code>, reserved: seq<bool>, slot: int, i: nat, j: nat)
    requires IsRun(states, reqs, codes) && Sound(states[0], reserved) && i < j < |states|
    requires reqs[i].WriteRequest? && Target(states[i].v.table, reqs[i]) == File(slot) && codes[i] == Sexe
    requires forall k :: i < k < j ==> Target(states[k].v.table, reqs[k]) != File(slot)
    ensures WellFormed(states[j].v, reserved, states[j].chains) && slot in Files(states[j], reserved)
    ensures var content := Files(states[j], reserved)[slot];
      reqs[i].offset + |reqs[i].buffer| <= |content| && content[reqs[i].offset..reqs[i].offset + |reqs[i].buffer|] == reqs[i].buffer
  {
    hide Step, Sound, WellFormed, Files, Locate;
    RunsServe(states, reqs, codes, reserved, i);
    UntouchedStays(states, reqs, codes, reserved, slot, i + 1, j);
  }

  // ---------- disciplined runs ----------

  ghost predicate DisciplinedStep(s: State, req: Request) {
    TableOk(s.v.table) && (req.TreeRequest? ==> Disciplined(s.v.table, req.op))
  }

  lemma StepStaysGood(s: State, req: Request, code: Code, s': State)
    requires Step(s, req, code, s') && Good(s.v.table) && DisciplinedStep(s, req)
    ensures Good(s'.v.table)
  {
    hide Good, Disciplined, Apply, SlotStep, Locate, SameTree, Fields;
    GoodIsOk(s.v.table);
    match req {
      case TreeRequest(op) => DisciplinedGood(s.v.table, op);
      case _ =>
        match Target(s.v.table, req) {
          case NotFound =>
          case File(slot) =>
            SlotTree(s, slot, req, code, s');
            if req.UnlinkRequest? { UnlinkRequestGood(s.v.table, req); }
            GoodIsOk(TreeAfter(s.v.table, slot, req));
            SameTreeKeeps(TreeAfter(s.v.table, slot, req), s'.v.table);
        }
    }
  }

  lemma GoodIsOk(t: Table)
    requires Good(t)
    ensures TableOk(t)
  {
  }

  lemma UnlinkRequestGood(t: Table, req: Request)
    requires Good(t) && req.UnlinkRequest? && Target(t, req).File?
    ensures Good(TreeAfter(t, Target(t, req).slot, req))
  {
    LocateIsRegular(t, req.names);
    UnlinkGood(t, req.names);
  }

  /** In a run that removes only childless directories and creates nothing over an existing name, at every
      point: a file request acts on the file whose path it names, on none if no node has that path, and every
      regular file is found under the path it spells. */
  lemma {:induction false} RunsFindFiles(states: seq<State>, reqs: seq<Request>, codes: seq<Code>, i: nat)
    requires IsRun(states, reqs, codes) && Good(states[0].v.table) && i < |states|
    requires forall k :: 0 <= k < |reqs| ==> DisciplinedStep(states[k], reqs[k])
    ensures Good(states[i].v.table)
    ensures forall names, slot :: Locate(states[i].v.table, names) == File(slot) <==>
      LiveFile(states[i].v, slot) && Spells(states[i].v.table, slot, names)
    ensures forall names :: Locate(states[i].v.table, names) == NotFound <==> !IsTaken(states[i].v.table, names)
    ensures forall slot, k: nat :: LiveFile(states[i].v, slot) && Hangs(states[i].v.table, slot, k, NONE) ==>
      Locate(states[i].v.table, Tokens(SLASH, Spelled(SLASH, Path(states[i].v.table, slot, k)))) == File(slot)
  {
    hide Good, Step, DisciplinedStep, Locate, Tokens, Spelled, Path, Hangs, Fields, Spells, IsTaken;
    if i > 0 {
      RunsFindFiles(states, reqs, codes, i - 1);
      GoodIsOk(states[i - 1].v.table);
      assert Step(states[i - 1], reqs[i - 1], codes[i - 1], states[i - 1 + 1]);
      StepStaysGood(states[i - 1], reqs[i - 1], codes[i - 1], states[i]);
    }
    var t := states[i].v.table;
    GoodIsOk(t);
    GoodIsClean(t);
    forall names ensures Locate(t, names) == NotFound <==> !IsTaken(t, names) { LocateIff(t, names); }
    forall names, slot ensures Locate(t, names) == File(slot) <==> LiveFile(states[i].v, slot) && Spells(t, slot, names) {
      LocateIff(t, names);
      if Locate(t, names) == File(slot) { LocateSpells(t, names); }
      FileHoldsNothing(states[i], slot);
    }
    forall slot, k: nat | LiveFile(states[i].v, slot) && Hangs(t, slot, k, NONE)
      ensures Locate(t, Tokens(SLASH, Spelled(SLASH, Path(t, slot, k)))) == File(slot) {
      SpelledFileFound(t, slot, k);
    }
  }

  lemma FileHoldsNothing(s: State, slot: int)
    requires |s.v.table| <= ROOT
    ensures LiveFile(s.v, slot) ==> !Holder(s.v.table, slot)
  {
  }

  lemma SpelledFileFound(t: Table, slot: int, k: nat)
    requires Good(t) && Hangs(t, slot, k, NONE) && 0 <= slot < |t| && t[slot].state == Regular
    ensures Locate(t, Tokens(SLASH, Spelled(SLASH, Path(t, slot, k)))) == File(slot)
  {
    hide Good;
    GoodIsOk(t);
    PathNames(t, slot, k);
    SplitSpelled(SLASH, Path(t, slot, k));
    LocateFollowsPath(t, slot, k);
  }

  // ---------- what requests do to paths ----------

  lemma {:induction false} SameSpells(t: Table, t': Table, x: int, q: seq<Name>)
    requires SameTree(t, t') && Spells(t, x, q)
    ensures Spells(t', x, q)
    decreases |q|
  {
    if q != [] { SameSpells(t, t', t[x].parent, q[..|q| - 1]); }
  }

  lemma {:induction false} NewBelowSpells(t: Table, t': Table, d: int, x: int, q: seq<Name>)
    requires NewBelow(t, t', d) && Spells(t, x, q)
    ensures Spells(t', x, q)
    decreases |q|
  {
    hide NameOf;
    if q != [] {
      var p := t[x].parent;
      NewBelowSpells(t, t', d, p, q[..|q| - 1]);
      assert t'[x] == t[x] && (IsDirectory(t, p) ==> Live(t, p) && t'[p] == t[p]);
    }
  }

  /** The path that a request takes away. */
  function Gone(req: Request, code: Code): seq<Name> {
    if code != Sexe then []
    else match req
      case UnlinkRequest(names) => names
      case TreeRequest(op) => if op.RmdirOp? then op.names else []
      case _ => []
  }

  /** The path a node has after a request, if it still has one. */
  function PathAfter(req: Request, code: Code, q: seq<Name>): seq<Name> {
    if req.TreeRequest? && req.op.RenameOp? && code == Sexe then Renamed(req.op.from, req.op.to, q) else q
  }

  /** What a request did to the path `q` of node `x`. */
  ghost predicate PathServed(t': Table, req: Request, code: Code, x: int, q: seq<Name>) {
    if Gone(req, code) != [] && Gone(req, code) <= q then !Spells(t', x, q) else Spells(t', x, PathAfter(req, code, q))
  }

  lemma TreePaths(t: Table, op: Op, t': Table, code: Code, x: int, q: seq<Name>)
    requires Good(t) && Disciplined(t, op) && !op.UnlinkOp? && Outcome(t', code) == Apply(t, op) && Spells(t, x, q)
    ensures PathServed(t', TreeRequest(op), code, x, q)
  {
    hide Good, MkdirFresh, Spells, WalkDirs, NameOf, NewBelow, Renamed, Childless;
    GoodIsOk(t);
    GoodIsClean(t);
    match op {
      case MkdirOp(names, junk) =>
        GoodIsRooted(t);
        MkdirAnswer(t, names, ROOT, junk, 0);
        NewBelowSpells(t, t', WalkDirs(t, names, ROOT, NONE).0, x, q);
      case MknodOp(names, junk) => MknodPathKept(t, names, junk, x, q);
      case RmdirOp(names) => RmdirPath(t, names, x, q);
      case RenameOp(from, to) => RenamePath(t, from, to, x, q);
    }
  }

  lemma GoodIsRooted(t: Table)
    requires Good(t)
    ensures AllRooted(t) && |t| <= ROOT && Hangs(t, ROOT, 0, NONE)
  {
  }

  lemma MknodPathKept(t: Table, names: seq<Name>, junk: seq<byte>, x: int, q: seq<Name>)
    requires |junk| == FILENAME_LENGTH && Clean(t) && (forall i :: 0 <= i < |names| ==> Nameable(names[i])) && Spells(t, x, q)
    ensures Spells(Mknod(t, names, junk).table, x, q)
  {
    hide Spells, Unique, Mknod, IsDirPath;
    MknodMeans(t, names, junk);
    var t' := Mknod(t, names, junk).table;
    if t' != t {
      var s :| IsNewFile(t, t', s, names);
      SpellsElsewhere(t, t', s, x, q);
    }
  }

  lemma RmdirPath(t: Table, names: seq<Name>, x: int, q: seq<Name>)
    requires Clean(t) && Spells(t, x, q)
    ensures PathServed(Rmdir(t, names).table, TreeRequest(RmdirOp(names)), Rmdir(t, names).code, x, q)
  {
    hide Spells, Unique, Rmdir, Removed;
    RmdirMeans(t, names);
    if names != [] && IsDirPath(t, names) {
      var d :| Spells(t, d, names) && Holder(t, d);
      RemovedPaths(t, d, names, x, q);
    }
  }

  lemma RenamePath(t: Table, from: seq<Name>, to: seq<Name>, x: int, q: seq<Name>)
    requires Good(t) && from != [] && (forall i :: 0 <= i < |to| ==> Nameable(to[i])) && Spells(t, x, q)
    ensures |t| <= ROOT && Fields(t)
    ensures PathServed(Rename(t, from, to).table, TreeRequest(RenameOp(from, to)), Rename(t, from, to).code, x, q)
  {
    hide Good, Spells, Unique, Rename, Renamed, IsMoved;
    GoodIsClean(t);
    GoodFields(t);
    if IsTaken(t, from) {
      var f :| Spells(t, f, from);
      RenameMeans(t, from, to, f);
      if Rename(t, from, to).code == Sexe { RenameMoves(t, from, to, f); }
    } else {
      RenameNothing(t, from, to);
    }
  }

  /** At every step of a disciplined run: unlink and rmdir take away the path they name, a rename moves the
      node it names and everything below it to where it says, and no request moves anything else. */
  lemma StepPaths(s: State, req: Request, code: Code, s': State, x: int, q: seq<Name>)
    requires Step(s, req, code, s') && Good(s.v.table) && DisciplinedStep(s, req) && Spells(s.v.table, x, q)
    ensures PathServed(s'.v.table, req, code, x, q)
  {
    hide Good, Disciplined, Apply, SlotStep, Locate, SameTree, Fields, Spells, Renamed, Removed;
    GoodIsOk(s.v.table);
    GoodIsClean(s.v.table);
    if req.TreeRequest? {
      TreePaths(s.v.table, req.op, s'.v.table, code, x, q);
    } else if Target(s.v.table, req).File? {
      SlotPaths(s, Target(s.v.table, req).slot, req, code, s', x, q);
    }
  }

  lemma SlotPaths(s: State, slot: int, req: Request, code: Code, s': State, x: int, q: seq<Name>)
    requires !req.TreeRequest? && Target(s.v.table, req) == File(slot) && SlotStep(s, slot, req, code, s')
    requires Clean(s.v.table) && Spells(s.v.table, x, q)
    ensures PathServed(s'.v.table, req, code, x, q)
  {
    hide SlotStep, Locate, SameTree, Spells, Unique, Renamed;
    SlotTree(s, slot, req, code, s');
    SlotCode(s, slot, req, code, s');
    if req.UnlinkRequest? {
      UnlinkPath(s.v.table, req.names, slot, x, q);
      if req.names <= q {
        GoneStays(Removed(s.v.table, slot), s'.v.table, x, q);
      } else {
        SameSpells(Removed(s.v.table, slot), s'.v.table, x, q);
      }
    } else {
      SameSpells(s.v.table, s'.v.table, x, q);
    }
  }

  lemma SlotCode(s: State, slot: int, req: Request, code: Code, s': State)
    requires SlotStep(s, slot, req, code, s')
    ensures req.UnlinkRequest? ==> code == Sexe
    ensures LiveFile(s.v, slot)
  {
  }

  lemma UnlinkPath(t: Table, names: seq<Name>, slot: int, x: int, q: seq<Name>)
    requires Clean(t) && Locate(t, names) == File(slot) && Spells(t, x, q)
    ensures names != [] && Live(t, slot)
    ensures Spells(Removed(t, slot), x, q) <==> !(names <= q)
  {
    hide Locate, Unique;
    LocateSpells(t, names);
    RemovedPaths(t, slot, names, x, q);
  }

  lemma GoneStays(u: Table, t': Table, x: int, q: seq<Name>)
    requires SameTree(u, t') && !Spells(u, x, q)
    ensures !Spells(t', x, q)
  {
    if Spells(t', x, q) {
      SameTreeBack(u, t');
      SameSpells(t', u, x, q);
    }
  }

  lemma SameTreeBack(u: Table, t': Table)
    requires SameTree(u, t')
    ensures SameTree(t', u)
  {
  }

  /** So it is at every step of a whole run. */
  lemma RunsMovePaths(states: seq<State>, reqs: seq<Request>, codes: seq<Code>, i: nat)
    requires IsRun(states, reqs, codes) && Good(states[0].v.table) && i < |reqs|
    requires forall k :: 0 <= k < |reqs| ==> DisciplinedStep(states[k], reqs[k])
    ensures forall x, q :: Spells(states[i].v.table, x, q) ==> PathServed(states[i + 1].v.table, reqs[i], codes[i], x, q)
  {
    hide Good, Step, DisciplinedStep, Spells, PathServed, Locate, Tokens, Spelled, Path, Hangs;
    RunsFindFiles(states, reqs, codes, i);
    assert Step(states[i], reqs[i], codes[i], states[i + 1]);
    forall x, q | Spells(states[i].v.table, x, q) ensures PathServed(states[i + 1].v.table, reqs[i], codes[i], x, q) {
      StepPaths(states[i], reqs[i], codes[i], states[i + 1], x, q);
    }
  }

  // ---------- where runs start ----------

  /** A formatted volume: no node in use, every set bit reserved. */
  ghost predicate Formatted(v: Volume, reserved: seq<bool>) {
    && |v.table| <= ROOT && Fields(v.table)
    && (forall s :: 0 <= s < |v.table| ==> v.table[s].state == Deleted)
    && v.bits == reserved
    && |v.links| == |v.bits| < 0x200_0000 && |v.data| == BLOCK_SIZE * |v.links|
  }

  /** From it, runs start sound, with a good tree and no files. */
  lemma FormattedIsSound(v: Volume, reserved: seq<bool>)
    requires Formatted(v, reserved)
    ensures var s := State(v, seq(|v.table|, _ => []));
      Sound(s, reserved) && Good(v.table) && Files(s, reserved) == map[]
  {
    var chains: seq<Chain> := seq(|v.table|, _ => []);
    assert forall b :: !InChain(chains, b);
    EmptyStops(v.table);
  }
}
