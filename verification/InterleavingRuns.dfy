/** Interleaved requests over whole runs: requests arrive, take their sections in any order, and finish. */
module InterleavingRuns {
  import opened Osada
  import opened Words
  import opened Volumes
  import opened Contents
  import opened Effects
  import opened Interleaving
  import opened InterleavingSafety

  // ---------- runs ----------

  /** A request arrives, or a slot takes its next step. */
  datatype Event = Arrival(slot: nat, req: Request) | Turn(slot: nat)

  predicate Enabled(a: System, e: Event) {
    match e
    case Arrival(s, req) => Welcome(a, s, req)
    case Turn(s) => Runnable(a, s)
  }

  function After(a: System, e: Event): System
    requires Enabled(a, e)
  {
    match e
    case Arrival(s, req) => Arrive(a, s, req)
    case Turn(s) => Advance(a, s)
  }

  ghost predicate IsRun(run: seq<System>, events: seq<Event>) {
    && |run| == |events| + 1
    && forall i :: 0 <= i < |events| ==> Enabled(run[i], events[i]) && run[i + 1] == After(run[i], events[i])
  }

  /** A well-formed volume and no request. */
  ghost predicate Start(a: System, reserved: seq<bool>) {
    && WellFormed(a.v, reserved, a.chains) && |a.stages| == |a.bases| == |a.v.table| == |a.chains|
    && forall s :: 0 <= s < |a.stages| ==> a.stages[s].Idle? && a.bases[s] == BaseOf(a, s)
  }

  lemma StartInv(a: System, reserved: seq<bool>)
    requires Start(a, reserved)
    ensures SystemInv(reserved, a)
  {
    hide Linked, Disjoint, Exact;
    forall s | 0 <= s < |a.stages|
      ensures SlotInv(a.v.table[s], a.chains[s], a.v.data, a.v.table[s], a.chains[s], a.v.data, a.stages[s]) {
      InDataOf(a.v, reserved, a.chains, s);
    }
  }

  lemma EventIsSafe(reserved: seq<bool>, a: System, e: Event)
    requires SystemInv(reserved, a) && Enabled(a, e)
    ensures SystemInv(reserved, After(a, e))
  {
    hide SystemInv, Advance, Arrive;
    match e {
      case Arrival(s, req) => ArrivalIsSafe(reserved, a, s, req);
      case Turn(s) => TurnInRange(reserved, a, s); StepIsSafe(reserved, a, s);
    }
  }

  lemma TurnInRange(reserved: seq<bool>, a: System, s: nat)
    requires Runnable(a, s)
    ensures s < |a.stages| && !a.stages[s].Idle? && !a.stages[s].Done?
  {
  }

  lemma {:induction false} RunInv(run: seq<System>, events: seq<Event>, reserved: seq<bool>, i: nat)
    requires IsRun(run, events) && Start(run[0], reserved) && i < |run|
    ensures SystemInv(reserved, run[i])
  {
    hide SystemInv, Start, After, Enabled;
    if i == 0 {
      StartInv(run[0], reserved);
    } else {
      RunInv(run, events, reserved, i - 1);
      assert run[i - 1 + 1] == After(run[i - 1], events[i - 1]);
      EventIsSafe(reserved, run[i - 1], events[i - 1]);
    }
  }

  // ---------- what a request found ----------

  /** The moment at which the slot's latest request arrived; 0 if there was none. */
  function ArrivedAt(events: seq<Event>, s: nat): (k: nat)
    ensures k <= |events| && (k == |events| ==> events == [])
    ensures forall j :: k < j < |events| ==> !(events[j].Arrival? && events[j].slot == s)
  {
    if events == [] then 0
    else
      var n := |events| - 1;
      if events[n].Arrival? && events[n].slot == s then n else ArrivedAt(events[..n], s)
  }

  /** The base of a slot is the file as it was when the slot's latest request arrived. */
  ghost predicate Remembers(run: seq<System>, events: seq<Event>, s: nat, i: nat) {
    i < |run| == |events| + 1
    && var k := ArrivedAt(events[..i], s);
      && s < |run[i].stages| == |run[i].bases| && s < |run[k].chains| == |run[k].v.table|
      && run[i].bases[s] == BaseOf(run[k], s)
      && (if run[i].stages[s].Idle? then k == 0 else k < i && events[k] == Arrival(s, run[i].stages[s].req))
  }

  lemma TurnSameRequest(a: System, t: nat, s: nat)
    requires Runnable(a, t) && s < |a.stages|
    ensures var b := Advance(a, t);
      && |b.stages| == |a.stages| && b.bases == a.bases
      && (b.stages[s].Idle? <==> a.stages[s].Idle?)
      && (!b.stages[s].Idle? ==> b.stages[s].req == a.stages[s].req)
  {
  }

  lemma {:induction false} BasesRemember(run: seq<System>, events: seq<Event>, reserved: seq<bool>, s: nat, i: nat)
    requires IsRun(run, events) && Start(run[0], reserved) && i < |run| && s < |run[0].stages|
    ensures Remembers(run, events, s, i)
  {
    hide Advance, WellFormed, Runnable, Serviceable;
    if i > 0 {
      var n := i - 1;
      BasesRemember(run, events, reserved, s, n);
      assert events[..i][..n] == events[..n] && events[..i][n] == events[n];
      assert Enabled(run[n], events[n]) && run[n + 1] == After(run[n], events[n]);
      if events[n].Turn? { TurnSameRequest(run[n], events[n].slot, s); }
    } else {
      assert events[..0] == [];
    }
  }

  // ---------- what a run means for the files ----------

  /** The content of the file at `s`, whatever the other requests are doing. */
  ghost predicate Holds(v: Volume, chains: seq<Chain>, s: int, content: seq<byte>) {
    && LiveFile(v, s) && s < |chains| && Fits(v.data, chains[s], v.table[s].fileSize)
    && Bytes(v.data, chains[s], v.table[s].fileSize) == content
  }

  /** The content a request found. */
  function Content(base: Base): seq<byte>
    requires Fits(base.data, base.chain, base.node.fileSize)
  {
    Bytes(base.data, base.chain, base.node.fileSize)
  }

  /** The effect of a finished request on its file is the one it has alone, up to which blocks it got and
      whether it ran out of space. */
  ghost predicate AsIfAlone(base: Base, v: Volume, chains: seq<Chain>, s: int, req: Request, code: Code) {
    && base.node.state == Regular && Fits(base.data, base.chain, base.node.fileSize)
    && var before := Content(base);
       if code == ENoSpc then Holds(v, chains, s, before)
       else match req
         case Write(offset, buffer) => exists after :: Holds(v, chains, s, after) && Overwritten(before, after, offset, buffer)
         case Truncate(size) => exists after :: Holds(v, chains, s, after) && Retained(before, after, size)
         case Unlink => !LiveFile(v, s) && 0 <= s < |chains| && chains[s] == []
  }

  lemma KeptOverwrites(data0: seq<byte>, ch0: Chain, data: seq<byte>, ch: Chain, offset: nat, buffer: seq<byte>, size0: nat, size: nat)
    requires Kept(data0, ch0, data, ch, offset, buffer, |buffer|)
    requires BlocksFor(size0) <= |ch0| && BlocksFor(size) <= |ch| && Within(data0, ch0) && Within(data, ch)
    requires size == if offset + |buffer| > size0 then offset + |buffer| else size0
    ensures Overwritten(Bytes(data0, ch0, size0), Bytes(data, ch, size), offset, buffer)
  {
    var after := Bytes(data, ch, size);
    assert after[offset..offset + |buffer|] == buffer;
  }

  lemma KeptRetains(data0: seq<byte>, ch0: Chain, data: seq<byte>, ch: Chain, size0: nat, size: nat)
    requires Kept(data0, ch0, data, ch, 0, [], 0)
    requires BlocksFor(size0) <= |ch0| && BlocksFor(size) <= |ch| && Within(data0, ch0) && Within(data, ch)
    ensures Retained(Bytes(data0, ch0, size0), Bytes(data, ch, size), size)
  {
    var before, after := Bytes(data0, ch0, size0), Bytes(data, ch, size);
    if size <= size0 { assert after == before[..size]; } else { assert after[..size0] == before; }
  }

  /** Whatever has been kept of it, the base has its bytes. */
  lemma BaseFits(reserved: seq<bool>, a: System, s: nat)
    requires SystemInv(reserved, a) && s < |a.stages| && Quiet(a.stages[s]) && a.bases[s].node.state == Regular
    requires a.stages[s].Done? && a.stages[s].req.Unlink? ==> Within(a.bases[s].data, a.bases[s].chain)
    ensures Fits(a.bases[s].data, a.bases[s].chain, a.bases[s].node.fileSize)
  {
    hide Separated, BlocksFor;
  }

  lemma FinishedAlone(reserved: seq<bool>, a: System, s: nat, req: Request, code: Code)
    requires SystemInv(reserved, a) && s < |a.stages| && a.stages[s] == Done(req, code) && Within(a.bases[s].data, a.bases[s].chain)
    ensures AsIfAlone(a.bases[s], a.v, a.chains, s, req, code)
  {
    hide Separated, Kept, Overwritten, Retained, Within, Bytes;
    var base, node, ch := a.bases[s], a.v.table[s], a.chains[s];
    BaseFits(reserved, a, s);
    SlotIsLocated(reserved, a, s);
    InDataOf(a.v, reserved, a.chains, s);
    if code == ENoSpc {
      KeptRetains(base.data, base.chain, a.v.data, ch, base.node.fileSize, node.fileSize);
    } else if req.Write? {
      KeptOverwrites(base.data, base.chain, a.v.data, ch, req.offset, req.buffer, base.node.fileSize, node.fileSize);
      assert Holds(a.v, a.chains, s, Bytes(a.v.data, ch, node.fileSize));
    } else if req.Truncate? {
      KeptRetains(base.data, base.chain, a.v.data, ch, base.node.fileSize, node.fileSize);
      assert Holds(a.v, a.chains, s, Bytes(a.v.data, ch, node.fileSize));
    }
  }

  lemma IdleUntouched(reserved: seq<bool>, a: System, s: nat)
    requires SystemInv(reserved, a) && s < |a.stages| && a.stages[s].Idle? && a.bases[s].node.state == Regular
    ensures Fits(a.bases[s].data, a.bases[s].chain, a.bases[s].node.fileSize)
    ensures Holds(a.v, a.chains, s, Content(a.bases[s]))
  {
    hide Separated, Kept, Retained, Within, Bytes;
    BaseFits(reserved, a, s);
    SlotIsLocated(reserved, a, s);
    InDataOf(a.v, reserved, a.chains, s);
    KeptRetains(a.bases[s].data, a.bases[s].chain, a.v.data, a.chains[s], a.bases[s].node.fileSize, a.bases[s].node.fileSize);
  }

  /** At the slot's moment of rest: its file holds what the latest request made of what it found. */
  ghost predicate SlotServed(run: seq<System>, events: seq<Event>, s: nat, i: nat)
    requires i < |run| == |events| + 1 && s < |run[i].stages|
  {
    var k := ArrivedAt(events[..i], s);
    && s < |run[k].chains| == |run[k].v.table|
    && (run[i].stages[s].Done? ==>
         && k < i && events[k] == Arrival(s, run[i].stages[s].req)
         && AsIfAlone(BaseOf(run[k], s), run[i].v, run[i].chains, s, run[i].stages[s].req, run[i].stages[s].code))
    && (run[i].stages[s].Idle? && LiveFile(run[0].v, s) ==>
         && k == 0 && Fits(run[0].v.data, run[0].chains[s], run[0].v.table[s].fileSize)
         && Holds(run[i].v, run[i].chains, s, Content(BaseOf(run[0], s))))
  }

  lemma RunServed(run: seq<System>, events: seq<Event>, reserved: seq<bool>, s: nat, i: nat)
    requires IsRun(run, events) && Start(run[0], reserved) && i < |run| && s < |run[0].stages|
    ensures s < |run[i].stages| && SlotServed(run, events, s, i)
  {
    hide SlotInv, Separated, Start, Enabled, After, AsIfAlone, Holds, Content, Fits, Within;
    BasesRemember(run, events, reserved, s, i);
    RunInv(run, events, reserved, i);
    var k := ArrivedAt(events[..i], s);
    RunInv(run, events, reserved, k);
    InDataOf(run[k].v, reserved, run[k].chains, s);
    if run[i].stages[s].Done? {
      FinishedAlone(reserved, run[i], s, run[i].stages[s].req, run[i].stages[s].code);
    } else if run[i].stages[s].Idle? && LiveFile(run[0].v, s) {
      IdleUntouched(reserved, run[i], s);
    }
  }

  /** In every run, however requests arrive and their sections interleave, at every moment: no block is in
      two chains, the bitmap marks exactly the reserved blocks and those of the chains, a file whose latest
      request has finished holds what that request alone makes of what it found, and a file nobody asked
      for holds what it held at the start. */
  lemma RunsAreSafe(run: seq<System>, events: seq<Event>, reserved: seq<bool>, i: nat)
    requires IsRun(run, events) && Start(run[0], reserved) && i < |run|
    ensures Separated(run[i].v, reserved, run[i].chains) && |run[i].stages| == |run[0].stages| == |run[i].v.table|
    ensures forall s :: 0 <= s < |run[i].stages| ==> SlotServed(run, events, s, i)
  {
    hide Separated, SlotInv, SlotServed, Enabled, After, Start;
    RunInv(run, events, reserved, i);
    RunInv(run, events, reserved, 0);
    RunSlots(run, events, reserved, i);
    forall s | 0 <= s < |run[i].stages| ensures SlotServed(run, events, s, i) {
      RunServed(run, events, reserved, s, i);
    }
  }

  lemma {:induction false} RunSlots(run: seq<System>, events: seq<Event>, reserved: seq<bool>, i: nat)
    requires IsRun(run, events) && Start(run[0], reserved) && i < |run|
    ensures |run[i].stages| == |run[0].stages|
  {
    hide Start, Advance, Runnable;
    if i > 0 {
      RunSlots(run, events, reserved, i - 1);
      assert run[i - 1 + 1] == After(run[i - 1], events[i - 1]);
      if events[i - 1].Turn? {
        TurnInRange(reserved, run[i - 1], events[i - 1].slot);
        TurnSameRequest(run[i - 1], events[i - 1].slot, events[i - 1].slot);
      }
    }
  }

  /** Whenever no request is under way, the volume is well-formed again. */
  lemma RunsEndWellFormed(run: seq<System>, events: seq<Event>, reserved: seq<bool>, i: nat)
    requires IsRun(run, events) && Start(run[0], reserved) && i < |run|
    requires forall s :: 0 <= s < |run[i].stages| ==> Quiet(run[i].stages[s])
    ensures WellFormed(run[i].v, reserved, run[i].chains)
  {
    hide Separated, Kept, After, Enabled, SlotInv;
    RunInv(run, events, reserved, i);
    var a := run[i];
    forall s | 0 <= s < |a.chains| && a.v.table[s].state == Regular ensures |a.chains[s]| == BlocksFor(a.v.table[s].fileSize) {
      QuietSized(a.bases[s].node, a.bases[s].chain, a.bases[s].data, a.v.table[s], a.chains[s], a.v.data, a.stages[s]);
    }
  }

  // ---------- nothing runs for ever ----------

  /** A bound on the steps a slot still has to take. */
  function StepsLeft(stage: Stage): nat {
    match stage
    case Idle => 0
    case Done(_, _) => 0
    case Mark(_) => 1
    case Release(_) => 1
    case Undo(_, _) => 1
    case Copy(req, done) => if done < |Buffer(req)| then |Buffer(req)| - done + 1 else 1
    case Scan(req, _) => |Buffer(req)| + 2
    case FirstBlock(req, _) => |Buffer(req)| + 3
    case Ready(req) => |Buffer(req)| + 4
  }

  lemma StepsDecrease(a: System, s: nat)
    requires Runnable(a, s)
    ensures StepsLeft(Advance(a, s).stages[s]) < StepsLeft(a.stages[s])
  {
    if a.stages[s].Copy? {
      CopyAddress(a.v.data, a.chains[s], a.stages[s].req.offset, a.stages[s].req.buffer, a.stages[s].done);
    }
  }

  /** However the slots are scheduled and whatever arrives for the others: from the moment a request
      arrives, it takes at most as many steps as its buffer has bytes, plus four. */
  lemma {:induction false} RequestsFinish(run: seq<System>, events: seq<Event>, reserved: seq<bool>, s: nat, k: nat, i: nat)
    requires IsRun(run, events) && Start(run[0], reserved) && s < |run[0].stages| && k < i < |run|
    requires events[k].Arrival? && events[k].slot == s
    requires forall j :: k < j < i ==> !(events[j].Arrival? && events[j].slot == s)
    ensures s < |run[i].stages| && StepsLeft(run[i].stages[s]) + Turns(events[k + 1..i], s) <= |Buffer(events[k].req)| + 4
  {
    hide Start, Advance, Runnable;
    var n := i - 1;
    RunSlots(run, events, reserved, n);
    assert run[n + 1] == After(run[n], events[n]);
    if n > k {
      RequestsFinish(run, events, reserved, s, k, n);
      assert events[k + 1..i][..n - k - 1] == events[k + 1..n] && events[k + 1..i][n - k - 1] == events[n];
      if events[n].Turn? { StepsOf(run[n], events[n].slot, s); }
    } else {
      assert events[k + 1..i] == [];
    }
  }

  /** How often slot `s` took a step. */
  function Turns(events: seq<Event>, s: nat): nat {
    if events == [] then 0
    else Turns(events[..|events| - 1], s) + (if events[|events| - 1] == Turn(s) then 1 else 0)
  }

  lemma StepsOf(a: System, t: nat, s: nat)
    requires Runnable(a, t) && s < |a.stages|
    ensures |Advance(a, t).stages| == |a.stages|
    ensures StepsLeft(Advance(a, t).stages[s]) + (if t == s then 1 else 0) <= StepsLeft(a.stages[s])
  {
    StepsDecrease(a, t);
  }
}
