/** First-fit allocation of blocks, and undoing it. */
module Allocation {
  import opened Osada
  import opened Words
  import opened Volumes

  // ---------- the scan ----------

  /** The blocks a scan starting at `from` takes when `need` blocks are wanted. */
  function FirstFit(bits: seq<bool>, from: nat, need: nat): (r: Chain)
    requires from <= |bits| < END_OF_FILE
    ensures |r| <= need && InBounds(r, |bits|)
    decreases |bits| - from
  {
    if need == 0 || from == |bits| then []
    else if bits[from] then FirstFit(bits, from + 1, need)
    else [from] + FirstFit(bits, from + 1, need - 1)
  }

  /** Where that scan stands when it ends. */
  function ScanStop(bits: seq<bool>, from: nat, need: nat): (r: nat)
    requires from <= |bits|
    ensures from <= r <= |bits|
    decreases |bits| - from
  {
    if need == 0 || from == |bits| then from
    else ScanStop(bits, from + 1, if bits[from] then need else need - 1)
  }

  function CountFree(bits: seq<bool>, from: nat, to: nat): nat
    requires to <= |bits|
    decreases if from < to then to - from else 0
  {
    if from >= to then 0 else (if bits[from] then 0 else 1) + CountFree(bits, from + 1, to)
  }

  predicate Ascending(ch: Chain) {
    forall i, j :: 0 <= i < j < |ch| ==> ch[i] < ch[j]
  }

  /** Only free blocks are taken, in ascending order. */
  lemma {:induction false} FirstFitFree(bits: seq<bool>, from: nat, need: nat)
    requires from <= |bits| < END_OF_FILE
    ensures var r := FirstFit(bits, from, need);
      Ascending(r) && forall i :: 0 <= i < |r| ==> from <= r[i] < |bits| && !bits[r[i]]
    decreases |bits| - from
  {
    if need == 0 || from == |bits| {
    } else {
      FirstFitFree(bits, from + 1, if bits[from] then need else need - 1);
    }
  }

  /** First fit: no free block is skipped for a later one. */
  lemma {:induction false} FirstFitTakesLowest(bits: seq<bool>, from: nat, need: nat, x: nat, i: nat)
    requires from <= |bits| < END_OF_FILE
    requires from <= x < |bits| && !bits[x] && i < |FirstFit(bits, from, need)| && x < FirstFit(bits, from, need)[i]
    ensures x in FirstFit(bits, from, need)
    decreases |bits| - from
  {
    if bits[from] {
      FirstFitTakesLowest(bits, from + 1, need, x, i);
    } else if x == from {
      assert FirstFit(bits, from, need)[0] == from;
    } else if i == 0 {
      assert false;
    } else {
      FirstFitTakesLowest(bits, from + 1, need - 1, x, i - 1);
    }
  }

  /** As many blocks are taken as are wanted and there are. */
  lemma {:induction false} FirstFitCount(bits: seq<bool>, from: nat, need: nat)
    requires from <= |bits| < END_OF_FILE
    ensures |FirstFit(bits, from, need)| ==
      if need <= CountFree(bits, from, |bits|) then need else CountFree(bits, from, |bits|)
    decreases |bits| - from
  {
    if need == 0 || from == |bits| {
    } else {
      FirstFitCount(bits, from + 1, if bits[from] then need else need - 1);
    }
  }

  /** The scan reaches the end of the bitmap, which the callers take for "no space", exactly when the
      blocks before the last one do not hold enough free ones. */
  lemma {:induction false} ScanRunsOut(bits: seq<bool>, from: nat, need: nat)
    requires need > 0 && from <= |bits|
    ensures ScanStop(bits, from, need) == |bits| <==> |bits| == 0 || CountFree(bits, from, |bits| - 1) < need
    decreases |bits| - from
  {
    if from == |bits| {
    } else if bits[from] {
      ScanRunsOut(bits, from + 1, need);
    } else if need == 1 {
    } else {
      ScanRunsOut(bits, from + 1, need - 1);
    }
  }

  /** Dropping the last block only loses what that block could add. */
  lemma {:induction false} CountSplit(bits: seq<bool>, from: nat)
    requires from < |bits|
    ensures CountFree(bits, from, |bits|) == CountFree(bits, from, |bits| - 1) + (if bits[|bits| - 1] then 0 else 1)
    decreases |bits| - from
  {
    if from < |bits| - 1 { CountSplit(bits, from + 1); }
  }

  lemma {:induction false} CountSame(bits: seq<bool>, bits': seq<bool>, from: nat, to: nat)
    requires |bits| == |bits'| && to <= |bits|
    requires forall x :: from <= x < to ==> bits[x] == bits'[x]
    ensures CountFree(bits, from, to) == CountFree(bits', from, to)
    decreases if from < to then to - from else 0
  {
    if from < to { CountSame(bits, bits', from + 1, to); }
  }

  lemma {:induction false} FirstFitSame(bits: seq<bool>, bits': seq<bool>, from: nat, need: nat)
    requires |bits| == |bits'| && from <= |bits| < END_OF_FILE
    requires forall x :: from <= x < |bits| ==> bits[x] == bits'[x]
    ensures FirstFit(bits, from, need) == FirstFit(bits', from, need)
    decreases |bits| - from
  {
    if need == 0 || from == |bits| {
    } else {
      FirstFitSame(bits, bits', from + 1, if bits[from] then need else need - 1);
    }
  }

  /** Taking one block and then the rest from the start again is taking them all at once. */
  lemma {:induction false} FirstFitInTwoScans(bits: seq<bool>, from: nat, need: nat)
    requires from <= |bits| < END_OF_FILE && need > 0
    requires CountFree(bits, from, |bits|) > 0
    ensures var first := FirstFit(bits, from, 1);
      |first| == 1 &&
      FirstFit(bits, from, need) == first + FirstFit(bits[first[0] := true], from, need - 1)
    decreases |bits| - from
  {
    if bits[from] {
      FirstFitInTwoScans(bits, from + 1, need);
      var b := FirstFit(bits, from + 1, 1)[0];
      FirstFitFree(bits, from + 1, 1);
      assert bits[b := true][from];
    } else {
      assert FirstFit(bits, from + 1, 0) == [];
      assert FirstFit(bits, from, 1) == [from];
      var bits' := bits[from := true];
      FirstFitSame(bits, bits', from + 1, need - 1);
    }
  }

  // ---------- linking a run of blocks in ----------

  lemma AppendAllSnoc(v: Volume, slot: nat, ch: Chain, blocks: Chain, b: uint32)
    requires slot < |v.table| && |v.links| == |v.bits|
    requires InBounds(ch, |v.links|) && InBounds(blocks, |v.links|) && b < |v.links|
    ensures AppendAll(v, slot, ch, blocks + [b]) == Append(AppendAll(v, slot, ch, blocks), slot, ch + blocks, b)
  {
    assert (blocks + [b])[..|blocks|] == blocks;
  }

  lemma {:induction false} AppendAllBits(v: Volume, slot: nat, ch: Chain, blocks: Chain)
    requires slot < |v.table| && |v.links| == |v.bits|
    requires InBounds(ch, |v.links|) && InBounds(blocks, |v.links|)
    ensures var w := AppendAll(v, slot, ch, blocks);
      w.data == v.data && forall x :: 0 <= x < |v.bits| ==> w.bits[x] == (v.bits[x] || x in blocks)
    decreases |blocks|
  {
    if blocks == [] {
    } else {
      var n := |blocks| - 1;
      AppendAllBits(v, slot, ch, blocks[..n]);
      assert blocks == blocks[..n] + [blocks[n]];
    }
  }

  lemma {:induction false} AppendAllTable(v: Volume, slot: nat, ch: Chain, blocks: Chain)
    requires slot < |v.table| && |v.links| == |v.bits|
    requires InBounds(ch, |v.links|) && InBounds(blocks, |v.links|)
    ensures AppendAll(v, slot, ch, blocks).table ==
      if ch == [] && blocks != [] then v.table[slot := v.table[slot].(firstBlock := blocks[0])] else v.table
    decreases |blocks|
  {
    if blocks == [] {
    } else {
      AppendAllTable(v, slot, ch, blocks[..|blocks| - 1]);
    }
  }

  lemma {:induction false} AppendAllCells(v: Volume, slot: nat, ch: Chain, blocks: Chain, x: nat)
    requires slot < |v.table| && |v.links| == |v.bits|
    requires InBounds(ch, |v.links|) && InBounds(blocks, |v.links|)
    requires x < |v.links| && (ch == [] || x != ch[|ch| - 1])
    requires forall i :: 0 <= i < |blocks| ==> blocks[i] != x
    ensures AppendAll(v, slot, ch, blocks).links[x] == v.links[x]
    decreases |blocks|
  {
    if blocks == [] {
    } else {
      var n := |blocks| - 1;
      var init := blocks[..n];
      AppendAllCells(v, slot, ch, init, x);
      assert CursorAt(ch + init, |ch + init|) != InMap(x) by {
        if n > 0 { assert (ch + init)[|ch + init| - 1] == blocks[n - 1]; }
      }
    }
  }

  lemma AppendOneMore(u: Volume, reserved: seq<bool>, chains: seq<Chain>, slot: nat, init: Chain, b: uint32)
    requires slot < |chains|
    requires Separated(u, reserved, chains[slot := chains[slot] + init]) && LiveFile(u, slot)
    requires b < |u.bits| && !u.bits[b] && InBounds(chains[slot] + init, |u.links|)
    ensures Separated(Append(u, slot, chains[slot] + init, b), reserved, chains[slot := chains[slot] + (init + [b])])
  {
    var mid := chains[slot := chains[slot] + init];
    AppendKeeps(u, reserved, mid, slot, b);
    assert mid[slot] + [b] == chains[slot] + (init + [b]);
    assert mid[slot := mid[slot] + [b]] == chains[slot := chains[slot] + (init + [b])];
  }

  lemma ChainInBounds(v: Volume, reserved: seq<bool>, chains: seq<Chain>, slot: nat)
    requires Separated(v, reserved, chains) && slot < |chains|
    ensures InBounds(chains[slot], |v.links|) && (v.table[slot].state == Regular ==> Linked(v.table[slot].firstBlock, v.links, chains[slot]))
  {
    assert ChainOk(v.table[slot], v.links, chains[slot]);
  }

  lemma StillFree(v: Volume, slot: nat, ch: Chain, blocks: Chain)
    requires slot < |v.table| && |v.links| == |v.bits|
    requires InBounds(ch, |v.links|) && InBounds(blocks, |v.links|)
    requires blocks != [] && Ascending(blocks) && !v.bits[blocks[|blocks| - 1]]
    ensures !AppendAll(v, slot, ch, blocks[..|blocks| - 1]).bits[blocks[|blocks| - 1]]
  {
    AppendAllBits(v, slot, ch, blocks[..|blocks| - 1]);
  }

  /** Linking in distinct free blocks, one after the other, keeps the invariant. */
  lemma {:induction false} AppendAllKeeps(v: Volume, reserved: seq<bool>, chains: seq<Chain>, slot: nat, blocks: Chain)
    requires Separated(v, reserved, chains) && LiveFile(v, slot)
    requires InBounds(blocks, |v.bits|) && Ascending(blocks)
    requires forall i :: 0 <= i < |blocks| ==> !v.bits[blocks[i]]
    ensures InBounds(chains[slot], |v.links|)
    ensures Separated(AppendAll(v, slot, chains[slot], blocks), reserved, chains[slot := chains[slot] + blocks])
    decreases |blocks|
  {
    var ch := chains[slot];
    ChainInBounds(v, reserved, chains, slot);
    if blocks == [] {
      assert ch + blocks == ch && chains[slot := ch] == chains;
    } else {
      var n := |blocks| - 1;
      var init := blocks[..n];
      var u := AppendAll(v, slot, ch, init);
      assert Separated(u, reserved, chains[slot := ch + init]) by { AppendAllKeeps(v, reserved, chains, slot, init); }
      assert Separated(Append(u, slot, ch + init, blocks[n]), reserved, chains[slot := ch + blocks]) by {
        AppendAllTable(v, slot, ch, init);
        StillFree(v, slot, ch, blocks);
        assert init + [blocks[n]] == blocks;
        AppendOneMore(u, reserved, chains, slot, init, blocks[n]);
      }
    }
  }

  /** A rolled-back growth: everything is as before, except that the mapping cells of the blocks that
      had been taken, free again, hold END_OF_FILE. */
  predicate Undone(v: Volume, w: Volume, blocks: Chain)
  {
    && w.table == v.table && w.bits == v.bits && w.data == v.data
    && |w.links| == |v.links|
    && forall x :: 0 <= x < |v.links| ==> w.links[x] == if x in blocks then END_OF_FILE else v.links[x]
  }

  lemma UndoLinks(v: Volume, slot: nat, ch: Chain, blocks: Chain, x: nat)
    requires slot < |v.table| && |v.links| == |v.bits| && InBounds(ch, |v.links|) && InBounds(blocks, |v.bits|)
    requires ch != [] ==> v.links[ch[|ch| - 1]] == END_OF_FILE
    requires x < |v.links|
    ensures Cut(AppendAll(v, slot, ch, blocks), slot, ch + blocks, |ch|).links[x]
      == if x in blocks then END_OF_FILE else v.links[x]
  {
    assert (ch + blocks)[|ch|..] == blocks;
    if ch != [] {
      assert CursorAt(ch + blocks, |ch|) == InMap(ch[|ch| - 1]);
    }
    if x !in blocks && (ch == [] || x != ch[|ch| - 1]) {
      AppendAllCells(v, slot, ch, blocks, x);
    }
  }

  lemma UndoTable(v: Volume, slot: nat, ch: Chain, blocks: Chain)
    requires slot < |v.table| && |v.links| == |v.bits| && InBounds(ch, |v.links|) && InBounds(blocks, |v.bits|)
    requires v.table[slot].firstBlock == At(ch, 0)
    ensures Cut(AppendAll(v, slot, ch, blocks), slot, ch + blocks, |ch|).table == v.table
  {
    AppendAllTable(v, slot, ch, blocks);
  }

  /** Growing and then cutting back to the old length restores the volume. */
  lemma GrowThenCut(v: Volume, reserved: seq<bool>, chains: seq<Chain>, slot: nat, blocks: Chain)
    requires Separated(v, reserved, chains) && LiveFile(v, slot)
    requires InBounds(blocks, |v.bits|)
    requires forall i :: 0 <= i < |blocks| ==> !v.bits[blocks[i]]
    ensures InBounds(chains[slot], |v.links|)
    ensures Undone(v, Cut(AppendAll(v, slot, chains[slot], blocks), slot, chains[slot] + blocks, |chains[slot]|), blocks)
  {
    var ch := chains[slot];
    assert ChainOk(v.table[slot], v.links, ch);
    var w := Cut(AppendAll(v, slot, ch, blocks), slot, ch + blocks, |ch|);
    UndoTable(v, slot, ch, blocks);
    AppendAllBits(v, slot, ch, blocks);
    forall x | 0 <= x < |v.bits| ensures w.bits[x] == v.bits[x] {
    }
    assert w.bits == v.bits;
    forall x | 0 <= x < |v.links| ensures w.links[x] == if x in blocks then END_OF_FILE else v.links[x] {
      UndoLinks(v, slot, ch, blocks, x);
    }
  }
}
