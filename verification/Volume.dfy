/** The block store as a value: node table, mapping table, bitmap and data area, the ghost chains
    that say which blocks each node holds, and the invariant tying the two together. */
module Volumes {
  import opened Osada
  import opened Words

  datatype Volume = Volume(table: seq<Node>, links: seq<uint32>, bits: seq<bool>, data: seq<byte>)

  type Chain = seq<uint32>

  /** Where a walking pointer stands: on the node's `first_block` or on a mapping-table cell. */
  datatype Cursor = InNode | InMap(cell: nat)

  // ---------- chains ----------

  /** The pointer stored at position `i` of chain `ch`; the position after the last holds END_OF_FILE. */
  function At(ch: Chain, i: nat): uint32 {
    if i < |ch| then ch[i] else END_OF_FILE
  }

  /** The cell that stores the pointer at position `i`. */
  function CursorAt(ch: Chain, i: nat): Cursor
    requires i <= |ch|
  {
    if i == 0 then InNode else InMap(ch[i - 1])
  }

  predicate InBounds(ch: Chain, n: nat) {
    forall i :: 0 <= i < |ch| ==> ch[i] < n
  }

  /** `ch` is spelled by the pointers: it starts at `first`, every block points to the next one and
      the last one to END_OF_FILE. */
  predicate Linked(first: uint32, links: seq<uint32>, ch: Chain)
    requires InBounds(ch, |links|)
  {
    && first == At(ch, 0)
    && forall i {:trigger links[ch[i]]} :: 0 <= i < |ch| ==> links[ch[i]] == At(ch, i + 1)
  }

  ghost predicate ChainOk(node: Node, links: seq<uint32>, ch: Chain) {
    && InBounds(ch, |links|)
    && (if node.state == Regular then Linked(node.firstBlock, links, ch) else ch == [])
  }

  ghost predicate InChain(chains: seq<Chain>, b: int) {
    exists s, i :: 0 <= s < |chains| && 0 <= i < |chains[s]| && chains[s][i] == b
  }

  /** No block appears twice, be it in one chain or in two. */
  ghost predicate Disjoint(chains: seq<Chain>) {
    forall s, i, t, j ::
      (0 <= s < |chains| && 0 <= i < |chains[s]| && 0 <= t < |chains| && 0 <= j < |chains[t]|
       && chains[s][i] == chains[t][j]) ==> s == t && i == j
  }

  ghost predicate Distinct(ch: Chain) {
    forall i, j :: 0 <= i < j < |ch| ==> ch[i] != ch[j]
  }

  ghost predicate Exact(bits: seq<bool>, reserved: seq<bool>, chains: seq<Chain>)
    requires |bits| == |reserved|
  {
    forall b :: 0 <= b < |bits| ==>
      (bits[b] <==> reserved[b] || InChain(chains, b)) && !(reserved[b] && InChain(chains, b))
  }

  ghost predicate Shaped(v: Volume, reserved: seq<bool>, chains: seq<Chain>) {
    && |chains| == |v.table|
    && |v.links| == |v.bits| == |reserved|
    && |v.data| == BLOCK_SIZE * |v.links|
    && |v.links| < 0x200_0000
  }

  /** Chains are well linked, separate, and the bitmap marks exactly them and the reserved blocks. */
  ghost predicate Separated(v: Volume, reserved: seq<bool>, chains: seq<Chain>) {
    && Shaped(v, reserved, chains)
    && (forall s :: 0 <= s < |chains| ==> ChainOk(v.table[s], v.links, chains[s]))
    && Disjoint(chains)
    && Exact(v.bits, reserved, chains)
  }

  /** A chain has exactly the blocks its node's size asks for. */
  ghost predicate Sized(v: Volume, chains: seq<Chain>)
    requires |chains| == |v.table|
  {
    forall s :: 0 <= s < |chains| && v.table[s].state == Regular ==> |chains[s]| == BlocksFor(v.table[s].fileSize)
  }

  ghost predicate WellFormed(v: Volume, reserved: seq<bool>, chains: seq<Chain>) {
    Separated(v, reserved, chains) && Sized(v, chains)
  }

  predicate LiveFile(v: Volume, slot: int) {
    0 <= slot < |v.table| && v.table[slot].state == Regular
  }

  // ---------- one pointer step ----------

  function Deref(v: Volume, slot: nat, c: Cursor): uint32
    requires slot < |v.table|
    requires c.InMap? ==> c.cell < |v.links|
  {
    match c
    case InNode => v.table[slot].firstBlock
    case InMap(b) => v.links[b]
  }

  function Assign(v: Volume, slot: nat, c: Cursor, p: uint32): Volume
    requires slot < |v.table|
    requires c.InMap? ==> c.cell < |v.links|
  {
    match c
    case InNode => v.(table := v.table[slot := v.table[slot].(firstBlock := p)])
    case InMap(b) => v.(links := v.links[b := p])
  }

  /** What the allocation scan does with a free block `b` it finds while the cursor stands at the end of `ch`. */
  function Append(v: Volume, slot: nat, ch: Chain, b: uint32): Volume
    requires slot < |v.table| && b < |v.links| == |v.bits|
    requires InBounds(ch, |v.links|)
  {
    var u := Assign(v, slot, CursorAt(ch, |ch|), b);
    u.(links := u.links[b := END_OF_FILE], bits := u.bits[b := true])
  }

  function AppendAll(v: Volume, slot: nat, ch: Chain, blocks: Chain): (r: Volume)
    requires slot < |v.table| && |v.links| == |v.bits|
    requires InBounds(ch, |v.links|) && InBounds(blocks, |v.links|)
    ensures |r.table| == |v.table| && |r.links| == |v.links| && |r.bits| == |v.bits|
  {
    if blocks == [] then v
    else
      var n := |blocks| - 1;
      Append(AppendAll(v, slot, ch, blocks[..n]), slot, ch + blocks[..n], blocks[n])
  }

  /** The release loop started at position `keep` of `ch`: bits of the tail are cleared and its cells,
      like the one the loop starts from, hold END_OF_FILE. */
  function Cut(v: Volume, slot: nat, ch: Chain, keep: nat): Volume
    requires slot < |v.table|
    requires keep <= |ch|
  {
    Volume(
      if keep == 0 then v.table[slot := v.table[slot].(firstBlock := END_OF_FILE)] else v.table,
      seq(|v.links|, x requires 0 <= x < |v.links| =>
        if x in ch[keep..] || CursorAt(ch, keep) == InMap(x) then END_OF_FILE else v.links[x]),
      seq(|v.bits|, x requires 0 <= x < |v.bits| => v.bits[x] && x !in ch[keep..]),
      v.data)
  }

  // ---------- what keeps the invariant ----------

  lemma FreeIsUnused(v: Volume, reserved: seq<bool>, chains: seq<Chain>, b: uint32)
    requires Separated(v, reserved, chains) && b < |v.bits| && !v.bits[b]
    ensures forall s, i :: 0 <= s < |chains| && 0 <= i < |chains[s]| ==> chains[s][i] != b
  {
    assert !InChain(chains, b);
  }

  lemma ExtendedInChain(chains: seq<Chain>, slot: nat, b: uint32, x: int)
    requires slot < |chains|
    ensures InChain(chains[slot := chains[slot] + [b]], x) <==> InChain(chains, x) || x == b
  {
    var chains' := chains[slot := chains[slot] + [b]];
    if InChain(chains, x) {
      var s, i :| 0 <= s < |chains| && 0 <= i < |chains[s]| && chains[s][i] == x;
      assert chains'[s][i] == x;
    }
    assert chains'[slot][|chains[slot]|] == b;
    if InChain(chains', x) {
      var s, i :| 0 <= s < |chains'| && 0 <= i < |chains'[s]| && chains'[s][i] == x;
      if s == slot && i == |chains[slot]| {
      } else {
        assert chains[s][i] == x;
      }
    }
  }

  lemma AppendLinks(v: Volume, reserved: seq<bool>, chains: seq<Chain>, slot: nat, b: uint32, s: nat)
    requires Separated(v, reserved, chains) && LiveFile(v, slot) && b < |v.bits| && !v.bits[b] && s < |chains|
    ensures ChainOk(Append(v, slot, chains[slot], b).table[s], Append(v, slot, chains[slot], b).links,
                    chains[slot := chains[slot] + [b]][s])
  {
    FreeIsUnused(v, reserved, chains, b);
    var ch := chains[slot];
    var w := Append(v, slot, ch, b);
    if s == slot {
      var ch' := ch + [b];
      forall i | 0 <= i < |ch'| ensures w.links[ch'[i]] == At(ch', i + 1) {
        if i < |ch| { assert ch'[i] == ch[i]; }
      }
    } else {
      var other := chains[s];
      forall i | 0 <= i < |other| ensures w.links[other[i]] == v.links[other[i]] {
        if |ch| > 0 { assert other[i] != ch[|ch| - 1]; }
      }
    }
  }

  lemma AppendBits(v: Volume, reserved: seq<bool>, chains: seq<Chain>, slot: nat, b: uint32)
    requires |v.bits| == |v.links| == |reserved| && slot < |v.table| && slot < |chains|
    requires Exact(v.bits, reserved, chains) && InBounds(chains[slot], |v.links|) && b < |v.bits| && !v.bits[b]
    ensures Exact(Append(v, slot, chains[slot], b).bits, reserved, chains[slot := chains[slot] + [b]])
  {
    var w, chains' := Append(v, slot, chains[slot], b), chains[slot := chains[slot] + [b]];
    forall x | 0 <= x < |w.bits| ensures
        (w.bits[x] <==> reserved[x] || InChain(chains', x)) && !(reserved[x] && InChain(chains', x)) {
      ExtendedInChain(chains, slot, b, x);
    }
  }

  lemma AppendDisjoint(chains: seq<Chain>, slot: nat, b: uint32)
    requires slot < |chains| && Disjoint(chains)
    requires forall s, i :: 0 <= s < |chains| && 0 <= i < |chains[s]| ==> chains[s][i] != b
    ensures Disjoint(chains[slot := chains[slot] + [b]])
  {
    var chains' := chains[slot := chains[slot] + [b]];
    forall s, i, t, j | 0 <= s < |chains'| && 0 <= i < |chains'[s]| && 0 <= t < |chains'| && 0 <= j < |chains'[t]|
      && chains'[s][i] == chains'[t][j] ensures s == t && i == j {
      var old_s, old_t := i < |chains[s]|, j < |chains[t]|;
      if old_s { assert chains'[s][i] == chains[s][i]; }
      if old_t { assert chains'[t][j] == chains[t][j]; }
    }
  }

  /** Linking in a free block keeps chains separate and the bitmap exact. */
  lemma AppendKeeps(v: Volume, reserved: seq<bool>, chains: seq<Chain>, slot: nat, b: uint32)
    requires Separated(v, reserved, chains) && LiveFile(v, slot) && b < |v.bits| && !v.bits[b]
    ensures Separated(Append(v, slot, chains[slot], b), reserved, chains[slot := chains[slot] + [b]])
  {
    var w, chains' := Append(v, slot, chains[slot], b), chains[slot := chains[slot] + [b]];
    forall s | 0 <= s < |chains'| ensures ChainOk(w.table[s], w.links, chains'[s]) {
      AppendLinks(v, reserved, chains, slot, b, s);
    }
    assert Disjoint(chains') by {
      FreeIsUnused(v, reserved, chains, b);
      AppendDisjoint(chains, slot, b);
    }
    AppendBits(v, reserved, chains, slot, b);
  }

  lemma ShortenedInChain(chains: seq<Chain>, slot: nat, keep: nat, x: int)
    requires slot < |chains| && keep <= |chains[slot]| && Disjoint(chains)
    ensures InChain(chains[slot := chains[slot][..keep]], x) <==> InChain(chains, x) && x !in chains[slot][keep..]
  {
    var ch := chains[slot];
    var chains' := chains[slot := ch[..keep]];
    if InChain(chains', x) {
      var s, i :| 0 <= s < |chains'| && 0 <= i < |chains'[s]| && chains'[s][i] == x;
      assert chains[s][i] == x;
      forall k | keep <= k < |ch| ensures ch[k] != x {
        assert chains[slot][k] == ch[k];
      }
    }
    if InChain(chains, x) && x !in ch[keep..] {
      var s, i :| 0 <= s < |chains| && 0 <= i < |chains[s]| && chains[s][i] == x;
      if s == slot && i >= keep {
        assert false;
      }
      assert chains'[s][i] == x;
    }
  }

  lemma CutLinks(v: Volume, reserved: seq<bool>, chains: seq<Chain>, slot: nat, keep: nat, s: nat)
    requires Separated(v, reserved, chains) && LiveFile(v, slot) && keep <= |chains[slot]| && s < |chains|
    ensures ChainOk(Cut(v, slot, chains[slot], keep).table[s], Cut(v, slot, chains[slot], keep).links,
                    chains[slot := chains[slot][..keep]][s])
  {
    var ch := chains[slot];
    var w := Cut(v, slot, ch, keep);
    if s == slot {
      var ch' := ch[..keep];
      forall i | 0 <= i < keep ensures w.links[ch'[i]] == At(ch', i + 1) {
        assert chains[slot][i] == ch'[i];
        assert forall k :: keep <= k < |ch| ==> chains[slot][k] != chains[slot][i];
        assert ch'[i] !in ch[keep..];
      }
    } else {
      var other := chains[s];
      forall i | 0 <= i < |other| ensures w.links[other[i]] == v.links[other[i]] {
        assert chains[s][i] == other[i];
        assert forall k :: 0 <= k < |ch| ==> chains[slot][k] != chains[s][i];
        assert other[i] !in ch[keep..];
      }
    }
  }

  lemma CutBits(v: Volume, reserved: seq<bool>, chains: seq<Chain>, slot: nat, keep: nat)
    requires Separated(v, reserved, chains) && LiveFile(v, slot) && keep <= |chains[slot]|
    ensures Exact(Cut(v, slot, chains[slot], keep).bits, reserved, chains[slot := chains[slot][..keep]])
  {
    var w, chains' := Cut(v, slot, chains[slot], keep), chains[slot := chains[slot][..keep]];
    forall x | 0 <= x < |w.bits| ensures
        (w.bits[x] <==> reserved[x] || InChain(chains', x)) && !(reserved[x] && InChain(chains', x)) {
      ShortenedInChain(chains, slot, keep, x);
      if x in chains[slot][keep..] {
        var k :| 0 <= k < |chains[slot][keep..]| && chains[slot][keep..][k] == x;
        assert chains[slot][keep + k] == x;
        assert InChain(chains, x);
      }
    }
  }

  lemma CutDisjoint(chains: seq<Chain>, slot: nat, keep: nat)
    requires slot < |chains| && keep <= |chains[slot]| && Disjoint(chains)
    ensures Disjoint(chains[slot := chains[slot][..keep]])
  {
    var chains' := chains[slot := chains[slot][..keep]];
    forall s, i, t, j | 0 <= s < |chains'| && 0 <= i < |chains'[s]| && 0 <= t < |chains'| && 0 <= j < |chains'[t]|
      && chains'[s][i] == chains'[t][j] ensures s == t && i == j {
      assert chains[s][i] == chains[t][j];
    }
  }

  /** Releasing a chain's tail keeps chains separate and the bitmap exact: nothing leaks. */
  lemma CutKeeps(v: Volume, reserved: seq<bool>, chains: seq<Chain>, slot: nat, keep: nat)
    requires Separated(v, reserved, chains) && LiveFile(v, slot) && keep <= |chains[slot]|
    ensures Separated(Cut(v, slot, chains[slot], keep), reserved, chains[slot := chains[slot][..keep]])
  {
    var w, chains' := Cut(v, slot, chains[slot], keep), chains[slot := chains[slot][..keep]];
    forall s | 0 <= s < |chains'| ensures ChainOk(w.table[s], w.links, chains'[s]) {
      CutLinks(v, reserved, chains, slot, keep, s);
    }
    CutBits(v, reserved, chains, slot, keep);
    CutDisjoint(chains, slot, keep);
  }

  // ---------- reading the chain ----------

  /** What the cursor at position `i` of a linked chain reads. */
  lemma CursorReads(v: Volume, slot: nat, ch: Chain, i: nat)
    requires slot < |v.table| && InBounds(ch, |v.links|) && |v.links| < END_OF_FILE
    requires Linked(v.table[slot].firstBlock, v.links, ch) && i <= |ch|
    ensures var c := CursorAt(ch, i);
      && (c.InMap? ==> c.cell < |v.links|)
      && Deref(v, slot, c) == At(ch, i)
      && (i < |ch| ==> Deref(v, slot, c) == ch[i] && ch[i] < |v.links|)
      && (Deref(v, slot, c) == END_OF_FILE <==> i == |ch|)
  {
    if i > 0 { assert v.links[ch[i - 1]] == At(ch, i); }
  }
}
