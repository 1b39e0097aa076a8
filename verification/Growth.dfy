/** Growing a file as a function of the volume, and undoing a growth that failed. */
module Growth {
  import opened Osada
  import opened Words
  import opened Volumes
  import opened Allocation

  function Resize(v: Volume, slot: nat, size: uint32): Volume
    requires slot < |v.table|
  {
    v.(table := v.table[slot := v.table[slot].(fileSize := size)])
  }

  /** The blocks a scan from the start of the bitmap takes. */
  function Wanted(v: Volume, need: nat): (r: Chain)
    ensures InBounds(r, |v.bits|)
  {
    if |v.bits| < END_OF_FILE then FirstFit(v.bits, 0, need) else []
  }

  function Extended(v: Volume, slot: nat, ch: Chain, need: nat): Volume
    requires slot < |v.table| && |v.links| == |v.bits| < END_OF_FILE
    requires InBounds(ch, |v.links|)
  {
    AppendAll(v, slot, ch, Wanted(v, need))
  }

  /** How many scan hits use up `amount` when each takes `step` off it. */
  function Units(amount: int, step: int): nat
    requires step == 1 || step == BLOCK_SIZE
  {
    if amount <= 0 then 0 else if step == 1 then amount else BlocksFor(amount)
  }

  /** When a growth by `need` blocks succeeds. The scan must not end on the last block of the device, so
      that block only ever serves as the first block of an empty file. */
  predicate HasRoom(bits: seq<bool>, empty: bool, need: nat) {
    && (empty ==> CountFree(bits, 0, |bits|) > 0)
    && (need == 0 || (empty && need == 1) || (|bits| > 0 && CountFree(bits, 0, |bits| - 1) >= need))
  }

  // ---------- a scan under way ----------

  /** A scan for `need` blocks stands at `at`, has taken `taken` and still wants `left`. */
  predicate ScanAt(bits: seq<bool>, need: nat, taken: Chain, at: nat, left: nat) {
    && at <= |bits| < END_OF_FILE
    && InBounds(taken, |bits|)
    && FirstFit(bits, 0, need) == taken + FirstFit(bits, at, left)
    && ScanStop(bits, 0, need) == ScanStop(bits, at, left)
  }

  lemma ScanStart(v: Volume, slot: nat, ch: Chain, need: nat)
    requires slot < |v.table| && |v.links| == |v.bits| < END_OF_FILE && InBounds(ch, |v.links|)
    ensures ScanAt(v.bits, need, [], 0, need) && AppendAll(v, slot, ch, []) == v
  {
  }

  lemma ScanStep(bits: seq<bool>, need: nat, taken: Chain, at: nat, left: nat)
    requires ScanAt(bits, need, taken, at, left) && left > 0 && at < |bits|
    ensures at < END_OF_FILE && InBounds(taken, |bits|)
    ensures if bits[at] then ScanAt(bits, need, taken, at + 1, left) else ScanAt(bits, need, taken + [at], at + 1, left - 1)
  {
    if !bits[at] {
      assert taken + ([at] + FirstFit(bits, at + 1, left - 1)) == taken + [at] + FirstFit(bits, at + 1, left - 1);
    }
  }

  lemma ScanEnd(bits: seq<bool>, need: nat, taken: Chain, at: nat, left: nat)
    requires ScanAt(bits, need, taken, at, left) && (left == 0 || at == |bits|)
    ensures |bits| < END_OF_FILE && InBounds(taken, |bits|) && FirstFit(bits, 0, need) == taken && ScanStop(bits, 0, need) == at
  {
  }

  lemma UnitsNone(amount: int, step: int)
    requires step == 1 || step == BLOCK_SIZE
    ensures Units(amount, step) == 0 <==> amount <= 0
  {
  }

  lemma UnitsLess(amount: int, step: int)
    requires amount > 0 && (step == 1 || step == BLOCK_SIZE)
    ensures Units(amount, step) == Units(amount - step, step) + 1
  {
  }

  // ---------- counting ----------

  lemma {:induction false} CountAfterTake(bits: seq<bool>, b: nat, from: nat, to: nat)
    requires b < |bits| && !bits[b] && from <= to <= |bits|
    ensures CountFree(bits[b := true], from, to) + (if from <= b < to then 1 else 0) == CountFree(bits, from, to)
    decreases if from < to then to - from else 0
  {
    if from < to { CountAfterTake(bits, b, from + 1, to); }
  }

  lemma {:induction false} NoneFreeBefore(bits: seq<bool>, from: nat, to: nat)
    requires to <= |bits| && forall x :: from <= x < to ==> bits[x]
    ensures CountFree(bits, from, to) == 0
    decreases if from < to then to - from else 0
  {
    if from < to { NoneFreeBefore(bits, from + 1, to); }
  }

  lemma FirstBlockFound(bits: seq<bool>)
    requires |bits| < END_OF_FILE
    ensures |FirstFit(bits, 0, 1)| == if CountFree(bits, 0, |bits|) > 0 then 1 else 0
  {
    FirstFitCount(bits, 0, 1);
  }

  lemma BusyBelow(bits: seq<bool>, x: nat)
    requires |bits| < END_OF_FILE && |FirstFit(bits, 0, 1)| == 1 && x < FirstFit(bits, 0, 1)[0]
    ensures bits[x]
  {
    FirstFitFree(bits, 0, 1);
    if !bits[x] {
      FirstFitTakesLowest(bits, 0, 1, x, 0);
      assert false;
    }
  }

  /** After the first block of an empty file was taken, the extension scan succeeds exactly as told by `HasRoom`. */
  lemma RoomForEmpty(bits: seq<bool>, need: nat)
    requires |bits| < END_OF_FILE && need >= 1 && CountFree(bits, 0, |bits|) > 0
    ensures |FirstFit(bits, 0, 1)| == 1
    ensures ScanStop(bits[FirstFit(bits, 0, 1)[0] := true], 0, need - 1) < |bits| <==> HasRoom(bits, true, need)
  {
    FirstBlockFound(bits);
    FirstFitFree(bits, 0, 1);
    var b := FirstFit(bits, 0, 1)[0];
    var bits' := bits[b := true];
    var n := |bits| - 1;
    if need > 1 {
      ScanRunsOut(bits', 0, need - 1);
      CountAfterTake(bits, b, 0, n);
      if b == n {
        forall x | 0 <= x < n ensures bits[x] { BusyBelow(bits, x); }
        NoneFreeBefore(bits, 0, n);
      }
    }
  }

  // ---------- growing in one or two scans ----------

  lemma {:induction false} AppendAllTwice(v: Volume, slot: nat, ch: Chain, first: Chain, second: Chain)
    requires slot < |v.table| && |v.links| == |v.bits|
    requires InBounds(ch, |v.links|) && InBounds(first, |v.links|) && InBounds(second, |v.links|)
    ensures AppendAll(AppendAll(v, slot, ch, first), slot, ch + first, second) == AppendAll(v, slot, ch, first + second)
    decreases |second|
  {
    if second == [] {
      assert first + second == first;
    } else {
      var n := |second| - 1;
      AppendAllTwice(v, slot, ch, first, second[..n]);
      assert (first + second)[..|first| + n] == first + second[..n];
      assert ch + first + second[..n] == ch + (first + second[..n]);
    }
  }

  lemma FirstScanBits(v: Volume, slot: nat)
    requires slot < |v.table| && |v.links| == |v.bits| < END_OF_FILE
    requires CountFree(v.bits, 0, |v.bits|) > 0
    ensures |Wanted(v, 1)| == 1
    ensures Extended(v, slot, [], 1).bits == v.bits[Wanted(v, 1)[0] := true]
  {
    FirstBlockFound(v.bits);
    var b := Wanted(v, 1)[0];
    assert Wanted(v, 1) == [b];
    AppendAllBits(v, slot, [], [b]);
    assert Extended(v, slot, [], 1).bits == v.bits[b := true];
  }

  /** Taking the first block of an empty file in one locked section and the rest in a second one gives
      the blocks, and the volume, that a single scan would have given. */
  lemma TwoScansAreOne(v: Volume, slot: nat, need: nat)
    requires slot < |v.table| && |v.links| == |v.bits| < END_OF_FILE && need >= 1
    requires CountFree(v.bits, 0, |v.bits|) > 0
    ensures var u := Extended(v, slot, [], 1);
      && Wanted(v, 1) + Wanted(u, need - 1) == Wanted(v, need)
      && Extended(u, slot, Wanted(v, 1), need - 1) == Extended(v, slot, [], need)
  {
    var u := Extended(v, slot, [], 1);
    FirstScanBits(v, slot);
    FirstFitInTwoScans(v.bits, 0, need);
    AppendAllTwice(v, slot, [], Wanted(v, 1), Wanted(u, need - 1));
    assert [] + Wanted(v, 1) == Wanted(v, 1);
  }

  // ---------- the invariant across a growth ----------

  lemma ResizeKeeps(v: Volume, reserved: seq<bool>, chains: seq<Chain>, slot: nat, size: uint32)
    requires Separated(v, reserved, chains) && slot < |v.table|
    ensures Separated(Resize(v, slot, size), reserved, chains)
  {
    var w := Resize(v, slot, size);
    forall s | 0 <= s < |chains| ensures ChainOk(w.table[s], w.links, chains[s]) {
      assert ChainOk(v.table[s], v.links, chains[s]);
    }
  }

  lemma ExtendedKeeps(v: Volume, reserved: seq<bool>, chains: seq<Chain>, slot: nat, need: nat)
    requires Separated(v, reserved, chains) && LiveFile(v, slot)
    ensures InBounds(chains[slot], |v.links|)
    ensures Separated(Extended(v, slot, chains[slot], need), reserved, chains[slot := chains[slot] + Wanted(v, need)])
  {
    FirstFitFree(v.bits, 0, need);
    AppendAllKeeps(v, reserved, chains, slot, Wanted(v, need));
  }

  lemma {:induction false} ResizedAppendAll(v: Volume, slot: nat, size: uint32, ch: Chain, blocks: Chain)
    requires slot < |v.table| && |v.links| == |v.bits|
    requires InBounds(ch, |v.links|) && InBounds(blocks, |v.links|)
    ensures Resize(AppendAll(Resize(v, slot, size), slot, ch, blocks), slot, v.table[slot].fileSize) == AppendAll(v, slot, ch, blocks)
  {
    var u := Resize(v, slot, size);
    AppendAllRest(v, u, slot, ch, blocks);
    AppendAllTable(v, slot, ch, blocks);
    AppendAllTable(u, slot, ch, blocks);
    assert Resize(AppendAll(u, slot, ch, blocks), slot, v.table[slot].fileSize).table == AppendAll(v, slot, ch, blocks).table;
  }

  lemma {:induction false} AppendAllRest(v: Volume, u: Volume, slot: nat, ch: Chain, blocks: Chain)
    requires slot < |v.table| == |u.table| && |v.links| == |v.bits|
    requires u.links == v.links && u.bits == v.bits && u.data == v.data
    requires InBounds(ch, |v.links|) && InBounds(blocks, |v.links|)
    ensures var w, w' := AppendAll(v, slot, ch, blocks), AppendAll(u, slot, ch, blocks);
      w.links == w'.links && w.bits == w'.bits && w.data == w'.data
    decreases |blocks|
  {
    if blocks != [] { AppendAllRest(v, u, slot, ch, blocks[..|blocks| - 1]); }
  }

  // ---------- what a whole growth does ----------

  predicate Growable(v: Volume, slot: int, ch: Chain, size: nat) {
    && 0 <= slot < |v.table|
    && |v.links| == |v.bits| < END_OF_FILE
    && InBounds(ch, |v.links|)
    && |ch| <= BlocksFor(size)
  }

  /** The blocks a growth of the file with chain `ch` to `size` bytes takes. */
  function NewBlocks(v: Volume, ch: Chain, size: nat): (r: Chain)
    ensures InBounds(r, |v.bits|)
  {
    if |ch| <= BlocksFor(size) then Wanted(v, BlocksFor(size) - |ch|) else []
  }

  /** The volume after that growth. */
  function Grown(v: Volume, slot: nat, ch: Chain, size: uint32): Volume
    requires Growable(v, slot, ch, size)
  {
    Extended(Resize(v, slot, size), slot, ch, BlocksFor(size) - |ch|)
  }

  predicate RoomFor(v: Volume, ch: Chain, size: nat) {
    |ch| <= BlocksFor(size) && HasRoom(v.bits, ch == [], BlocksFor(size) - |ch|)
  }

  lemma RoomIsEnough(v: Volume, ch: Chain, size: nat)
    requires |v.bits| < END_OF_FILE && RoomFor(v, ch, size)
    ensures |ch + NewBlocks(v, ch, size)| == BlocksFor(size)
  {
    FirstFitCount(v.bits, 0, BlocksFor(size) - |ch|);
    if |v.bits| > 0 { CountSplit(v.bits, 0); }
  }

  /** A volume and a file about to be enlarged. */
  ghost predicate Growing(v: Volume, reserved: seq<bool>, chains: seq<Chain>, slot: int, size: nat) {
    && WellFormed(v, reserved, chains) && LiveFile(v, slot) && |chains| == |v.table|
    && v.table[slot].fileSize < size <= 0xffff_ffff
    && |chains[slot]| == BlocksFor(v.table[slot].fileSize)
    && Growable(v, slot, chains[slot], size)
  }

  lemma IsGrowing(v: Volume, reserved: seq<bool>, chains: seq<Chain>, slot: nat, size: nat)
    requires WellFormed(v, reserved, chains) && LiveFile(v, slot) && v.table[slot].fileSize < size <= 0xffff_ffff
    ensures Growing(v, reserved, chains, slot, size)
  {
    ChainInBounds(v, reserved, chains, slot);
  }

  lemma GrownTable(v: Volume, slot: nat, ch: Chain, size: uint32)
    requires Growable(v, slot, ch, size)
    ensures var w := Grown(v, slot, ch, size);
      && |w.table| == |v.table| && |w.links| == |v.links|
      && forall s :: 0 <= s < |v.table| ==>
           w.table[s].state == v.table[s].state && w.table[s].fileSize == if s == slot then size else v.table[s].fileSize
  {
    AppendAllTable(Resize(v, slot, size), slot, ch, NewBlocks(v, ch, size));
  }

  lemma GrownSeparated(v: Volume, reserved: seq<bool>, chains: seq<Chain>, slot: nat, size: uint32)
    requires Separated(v, reserved, chains) && LiveFile(v, slot) && slot < |chains| && Growable(v, slot, chains[slot], size)
    ensures Separated(Grown(v, slot, chains[slot], size), reserved, chains[slot := chains[slot] + NewBlocks(v, chains[slot], size)])
  {
    hide Separated, AppendAll, FirstFit;
    ResizeKeeps(v, reserved, chains, slot, size);
    ExtendedKeeps(Resize(v, slot, size), reserved, chains, slot, BlocksFor(size) - |chains[slot]|);
  }

  /** A growth that finds its blocks leaves a well-formed volume. */
  lemma GrownKeeps(v: Volume, reserved: seq<bool>, chains: seq<Chain>, slot: nat, size: uint32)
    requires Growing(v, reserved, chains, slot, size)
    requires |chains[slot] + NewBlocks(v, chains[slot], size)| == BlocksFor(size)
    ensures WellFormed(Grown(v, slot, chains[slot], size), reserved,
                       chains[slot := chains[slot] + NewBlocks(v, chains[slot], size)])
  {
    GrownSeparated(v, reserved, chains, slot, size);
    GrownTable(v, slot, chains[slot], size);
  }

  /** The enlarged chain is well linked in the enlarged volume, whether or not it is long enough. */
  lemma GrownLinked(v: Volume, reserved: seq<bool>, chains: seq<Chain>, slot: nat, size: uint32)
    requires Separated(v, reserved, chains) && LiveFile(v, slot) && Growable(v, slot, chains[slot], size)
    ensures var w, ch := Grown(v, slot, chains[slot], size), chains[slot] + NewBlocks(v, chains[slot], size);
      && slot < |w.table| == |v.table| && |w.links| == |v.links|
      && InBounds(ch, |w.links|) && Linked(w.table[slot].firstBlock, w.links, ch) && Distinct(ch)
  {
    var w, chains' := Grown(v, slot, chains[slot], size), chains[slot := chains[slot] + NewBlocks(v, chains[slot], size)];
    GrownSeparated(v, reserved, chains, slot, size);
    GrownTable(v, slot, chains[slot], size);
    ChainInBounds(w, reserved, chains', slot);
    DisjointDistinct(chains', slot);
  }

  lemma DisjointDistinct(chains: seq<Chain>, s: nat)
    requires Disjoint(chains) && s < |chains|
    ensures Distinct(chains[s])
  {
    forall i, j | 0 <= i < j < |chains[s]| ensures chains[s][i] != chains[s][j] {
    }
  }

  /** A rolled-back growth breaks nothing. */
  lemma UndoneKeeps(v: Volume, reserved: seq<bool>, chains: seq<Chain>, w: Volume, ch: Chain, size: nat)
    requires WellFormed(v, reserved, chains) && Undone(v, w, NewBlocks(v, ch, size))
    ensures WellFormed(w, reserved, chains)
  {
    if |ch| <= BlocksFor(size) { FirstFitFree(v.bits, 0, BlocksFor(size) - |ch|); }
    forall s | 0 <= s < |chains| ensures ChainOk(w.table[s], w.links, chains[s]) {
      UndoneChain(v, reserved, chains, w, NewBlocks(v, ch, size), s);
    }
  }

  lemma UndoneChain(v: Volume, reserved: seq<bool>, chains: seq<Chain>, w: Volume, blocks: Chain, s: nat)
    requires Separated(v, reserved, chains) && InBounds(blocks, |v.bits|) && s < |chains|
    requires forall i :: 0 <= i < |blocks| ==> !v.bits[blocks[i]]
    requires Undone(v, w, blocks)
    ensures ChainOk(w.table[s], w.links, chains[s])
  {
    assert ChainOk(v.table[s], v.links, chains[s]);
    forall i | 0 <= i < |chains[s]| ensures w.links[chains[s][i]] == v.links[chains[s][i]] {
      forall k | 0 <= k < |blocks| ensures blocks[k] != chains[s][i] {
        FreeIsUnused(v, reserved, chains, blocks[k]);
      }
    }
  }

  // ---------- a growth in its two sections ----------

  /** The volume once the new size is recorded and an empty file has its first block. */
  function Started(v: Volume, slot: nat, ch: Chain, size: uint32): Volume
    requires Growable(v, slot, ch, size)
  {
    if ch == [] then Extended(Resize(v, slot, size), slot, [], 1) else Resize(v, slot, size)
  }

  function StartChain(v: Volume, ch: Chain): Chain {
    if ch == [] then Wanted(v, 1) else ch
  }

  /** The first section, if the file needed it, found a block. */
  predicate FirstFound(v: Volume, ch: Chain) {
    ch == [] ==> CountFree(v.bits, 0, |v.bits|) > 0
  }

  lemma StartedKeeps(v: Volume, reserved: seq<bool>, chains: seq<Chain>, slot: nat, size: uint32)
    requires Separated(v, reserved, chains) && LiveFile(v, slot) && Growable(v, slot, chains[slot], size)
    ensures var u := Started(v, slot, chains[slot], size);
      && Separated(u, reserved, chains[slot := StartChain(v, chains[slot])])
      && |u.table| == |v.table| && |u.links| == |u.bits| == |v.links| && LiveFile(u, slot)
  {
    ResizeKeeps(v, reserved, chains, slot, size);
    if chains[slot] == [] {
      ExtendedKeeps(Resize(v, slot, size), reserved, chains, slot, 1);
      AppendAllTable(Resize(v, slot, size), slot, [], Wanted(v, 1));
      assert [] + Wanted(v, 1) == Wanted(v, 1);
    } else {
      assert chains[slot := chains[slot]] == chains;
    }
  }

  lemma StartedLinked(v: Volume, reserved: seq<bool>, chains: seq<Chain>, slot: nat, size: uint32)
    requires Separated(v, reserved, chains) && LiveFile(v, slot) && Growable(v, slot, chains[slot], size)
    ensures var u, ch := Started(v, slot, chains[slot], size), StartChain(v, chains[slot]);
      && slot < |u.table| == |v.table| && |u.links| == |u.bits| == |v.links|
      && InBounds(ch, |u.links|) && Linked(u.table[slot].firstBlock, u.links, ch)
  {
    var chains' := chains[slot := StartChain(v, chains[slot])];
    StartedKeeps(v, reserved, chains, slot, size);
    ChainInBounds(Started(v, slot, chains[slot], size), reserved, chains', slot);
  }

  /** The extension scan completes what the first section began. */
  lemma StartedThenExtended(v: Volume, slot: nat, ch: Chain, size: uint32)
    requires Growable(v, slot, ch, size) && size > 0 && FirstFound(v, ch)
    ensures InBounds(StartChain(v, ch), |v.links|) && 0 < |StartChain(v, ch)| <= BlocksFor(size)
    ensures var u, rest := Started(v, slot, ch, size), BlocksFor(size) - |StartChain(v, ch)|;
      && |u.table| == |v.table| && |u.links| == |u.bits| == |v.links|
      && StartChain(v, ch) + Wanted(u, rest) == ch + NewBlocks(v, ch, size)
      && Extended(u, slot, StartChain(v, ch), rest) == Grown(v, slot, ch, size)
  {
    hide AppendAll, FirstFit, CountFree;
    if ch == [] {
      TwoScansAreOne(Resize(v, slot, size), slot, BlocksFor(size));
      FirstBlockFound(v.bits);
    }
  }

  /** Whether it reports "no space". */
  lemma StartedStop(v: Volume, slot: nat, ch: Chain, size: uint32)
    requires Growable(v, slot, ch, size) && size > 0 && FirstFound(v, ch)
    ensures |StartChain(v, ch)| <= BlocksFor(size)
    ensures ScanStop(Started(v, slot, ch, size).bits, 0, BlocksFor(size) - |StartChain(v, ch)|) < |v.bits| <==> RoomFor(v, ch, size)
  {
    var need := BlocksFor(size) - |ch|;
    if ch == [] {
      FirstScanBits(Resize(v, slot, size), slot);
      RoomForEmpty(v.bits, need);
    } else if need > 0 {
      ScanRunsOut(v.bits, 0, need);
    } else {
      assert |v.bits| > 0 by { assert ch[0] < |v.links|; }
    }
  }

  lemma StartLength(v: Volume, ch: Chain)
    requires |v.bits| < END_OF_FILE && FirstFound(v, ch)
    ensures |StartChain(v, ch)| == if ch == [] then 1 else |ch|
  {
    FirstBlockFound(v.bits);
  }

  lemma NothingFound(v: Volume, ch: Chain, size: nat)
    requires |v.bits| < END_OF_FILE && !FirstFound(v, ch) && size > 0
    ensures Undone(v, v, NewBlocks(v, ch, size)) && !RoomFor(v, ch, size)
  {
    FirstFitCount(v.bits, 0, BlocksFor(size));
  }

  lemma FirstBlockIsFound(v: Volume)
    requires |v.bits| < END_OF_FILE
    ensures Wanted(v, 1) != [] <==> FirstFound(v, [])
  {
    FirstBlockFound(v.bits);
  }

  lemma GrownResized(v: Volume, slot: nat, ch: Chain, size: uint32)
    requires Growable(v, slot, ch, size)
    ensures Resize(Grown(v, slot, ch, size), slot, v.table[slot].fileSize) == AppendAll(v, slot, ch, NewBlocks(v, ch, size))
  {
    ResizedAppendAll(v, slot, size, ch, NewBlocks(v, ch, size));
  }

  /** Rolling back a growth, whose first step recorded the new size, differs from never having tried in
      free mapping cells only. */
  lemma GrownUndone(v: Volume, reserved: seq<bool>, chains: seq<Chain>, slot: nat, size: uint32)
    requires Separated(v, reserved, chains) && LiveFile(v, slot) && slot < |chains| && Growable(v, slot, chains[slot], size)
    ensures Undone(v, Cut(Resize(Grown(v, slot, chains[slot], size), slot, v.table[slot].fileSize), slot,
                          chains[slot] + NewBlocks(v, chains[slot], size), |chains[slot]|), NewBlocks(v, chains[slot], size))
  {
    hide Separated, AppendAll, FirstFit, Grown, Cut, Undone, Resize;
    var blocks := NewBlocks(v, chains[slot], size);
    assert forall i :: 0 <= i < |blocks| ==> !v.bits[blocks[i]] by {
      FirstFitFree(v.bits, 0, BlocksFor(size) - |chains[slot]|);
    }
    GrownResized(v, slot, chains[slot], size);
    GrowThenCut(v, reserved, chains, slot, blocks);
  }

  /** The bytes still missing once the free tail of the last block is used up ask for just the blocks missing. */
  lemma MissingBytes(v: Volume, ch: Chain, fsize: uint32, newSize: uint32)
    requires |v.bits| < END_OF_FILE && |ch| == BlocksFor(fsize) && fsize < newSize && FirstFound(v, ch)
    ensures var first := StartChain(v, ch);
      && 0 < |first| <= BlocksFor(newSize)
      && Units(newSize - fsize - (BLOCK_SIZE - (fsize - (|first| - 1) * BLOCK_SIZE)), BLOCK_SIZE) == BlocksFor(newSize) - |first|
  {
    FirstBlockFound(v.bits);
  }

  /** Where the second section finds the volume the first one left, and what its scan comes to. */
  lemma BetweenSections(v: Volume, reserved: seq<bool>, chains: seq<Chain>, slot: nat, size: uint32, u: Volume)
    requires Growing(v, reserved, chains, slot, size) && FirstFound(v, chains[slot])
    requires u == Started(v, slot, chains[slot], size)
    ensures var first := StartChain(v, chains[slot]);
      && slot < |u.table| && 0 < |first| && InBounds(first, |u.links|)
      && Linked(u.table[slot].firstBlock, u.links, first) && u.table[slot].firstBlock == At(first, 0)
    ensures var first, fsize := StartChain(v, chains[slot]), v.table[slot].fileSize;
      var rest := Units(size - fsize - (BLOCK_SIZE - (fsize - (|first| - 1) * BLOCK_SIZE)), BLOCK_SIZE);
      && Extended(u, slot, first, rest) == Grown(v, slot, chains[slot], size)
      && (ScanStop(u.bits, 0, rest) < |u.bits| <==> RoomFor(v, chains[slot], size))
  {
    hide AppendAll, FirstFit, CountFree, ScanStop, Started, Extended, Grown, Wanted, StartChain, NewBlocks, Units, RoomFor;
    StartedLinked(v, reserved, chains, slot, size);
    StartedThenExtended(v, slot, chains[slot], size);
    StartedStop(v, slot, chains[slot], size);
    MissingBytes(v, chains[slot], v.table[slot].fileSize, size);
  }
}
