/** The loop that releases a chain's tail, one block at a time, and its closed form. Before it lets a block
    go, the loop reads the next one from the cell it is about to overwrite. */
module Release {
  import opened Osada
  import opened Volumes

  /** The volume after the release loop has freed positions `keep` to `upto` of the chain. */
  ghost function CutTo(v: Volume, slot: nat, ch: Chain, keep: nat, upto: nat): (r: Volume)
    requires slot < |v.table| && |v.links| == |v.bits|
    requires InBounds(ch, |v.links|) && keep <= upto <= |ch|
    ensures |r.table| == |v.table| && |r.links| == |v.links| && |r.bits| == |v.bits|
  {
    if upto == keep then v
    else
      var u := CutTo(v, slot, ch, keep, upto - 1);
      Assign(u.(bits := u.bits[ch[upto - 1] := false]), slot, CursorAt(ch, upto - 1), END_OF_FILE)
  }

  /** Cells behind the loop hold END_OF_FILE, cells ahead of it are untouched. */
  lemma {:induction false} CutToCells(v: Volume, slot: nat, ch: Chain, keep: nat, upto: nat)
    requires slot < |v.table| && |v.links| == |v.bits|
    requires InBounds(ch, |v.links|) && keep <= upto <= |ch| && Distinct(ch)
    ensures var u := CutTo(v, slot, ch, keep, upto);
      && u.data == v.data
      && (u.table == if keep == 0 < upto then v.table[slot := v.table[slot].(firstBlock := END_OF_FILE)] else v.table)
      && (forall i :: upto <= i < |ch| ==> u.links[ch[i]] == v.links[ch[i]])
      && (forall i :: 0 <= i < |ch| && keep <= i + 1 < upto ==> u.links[ch[i]] == END_OF_FILE)
      && (keep < upto ==> u.links[ch[upto - 1]] == v.links[ch[upto - 1]])
      && (forall i :: 0 <= i < keep - 1 ==> u.links[ch[i]] == v.links[ch[i]])
    decreases upto
  {
    if keep < upto { CutToCells(v, slot, ch, keep, upto - 1); }
  }

  lemma {:induction false} CutToElsewhere(v: Volume, slot: nat, ch: Chain, keep: nat, upto: nat, x: nat)
    requires slot < |v.table| && |v.links| == |v.bits|
    requires InBounds(ch, |v.links|) && keep <= upto <= |ch| && x < |v.links|
    requires forall i :: 0 <= i < |ch| && keep <= i + 1 ==> ch[i] != x
    ensures CutTo(v, slot, ch, keep, upto).links[x] == v.links[x]
    decreases upto
  {
    if keep < upto { CutToElsewhere(v, slot, ch, keep, upto - 1, x); }
  }

  lemma {:induction false} CutToBits(v: Volume, slot: nat, ch: Chain, keep: nat, upto: nat, x: nat)
    requires slot < |v.table| && |v.links| == |v.bits|
    requires InBounds(ch, |v.links|) && keep <= upto <= |ch| && x < |v.bits|
    ensures CutTo(v, slot, ch, keep, upto).bits[x] == (v.bits[x] && forall i :: keep <= i < upto ==> ch[i] != x)
    decreases upto
  {
    if keep < upto { CutToBits(v, slot, ch, keep, upto - 1, x); }
  }

  /** The cells of the tail, and the one before it, hold END_OF_FILE; the others are untouched. */
  lemma CutCell(v: Volume, slot: nat, ch: Chain, keep: nat, i: nat)
    requires slot < |v.table| && |v.links| == |v.bits| && InBounds(ch, |v.links|) && i < |ch| && keep <= i + 1 <= |ch|
    ensures keep <= |ch| && Cut(v, slot, ch, keep).links[ch[i]] == END_OF_FILE
  {
    if i >= keep { assert ch[keep..][i - keep] == ch[i]; }
  }

  lemma CutElsewhere(v: Volume, slot: nat, ch: Chain, keep: nat, x: nat)
    requires slot < |v.table| && |v.links| == |v.bits| && InBounds(ch, |v.links|) && keep <= |ch| && x < |v.links|
    requires forall i :: 0 <= i < |ch| && keep <= i + 1 ==> ch[i] != x
    ensures Cut(v, slot, ch, keep).links[x] == v.links[x]
  {
  }

  lemma CutToCell(v: Volume, slot: nat, ch: Chain, keep: nat, i: nat)
    requires slot < |v.table| && |v.links| == |v.bits| && InBounds(ch, |v.links|) && Distinct(ch)
    requires Linked(v.table[slot].firstBlock, v.links, ch) && i < |ch| && keep <= i + 1 <= |ch|
    ensures keep <= |ch| && CutTo(v, slot, ch, keep, |ch|).links[ch[i]] == END_OF_FILE
  {
    CutToCells(v, slot, ch, keep, |ch|);
    assert v.links[ch[|ch| - 1]] == At(ch, |ch|);
  }

  lemma CutToIsCutLinks(v: Volume, slot: nat, ch: Chain, keep: nat, x: nat)
    requires slot < |v.table| && |v.links| == |v.bits| && keep <= |ch| && InBounds(ch, |v.links|) && Distinct(ch)
    requires Linked(v.table[slot].firstBlock, v.links, ch) && x < |v.links|
    ensures CutTo(v, slot, ch, keep, |ch|).links[x] == Cut(v, slot, ch, keep).links[x]
  {
    hide CutTo, Cut, Linked, Distinct;
    if i: nat :| i < |ch| && keep <= i + 1 && ch[i] == x {
      CutCell(v, slot, ch, keep, i);
      CutToCell(v, slot, ch, keep, i);
    } else {
      CutElsewhere(v, slot, ch, keep, x);
      CutToElsewhere(v, slot, ch, keep, |ch|, x);
    }
  }

  /** The loop computes the closed form. */
  lemma CutToIsCut(v: Volume, slot: nat, ch: Chain, keep: nat)
    requires slot < |v.table| && |v.links| == |v.bits| && keep <= |ch| && InBounds(ch, |v.links|) && Distinct(ch)
    requires Linked(v.table[slot].firstBlock, v.links, ch)
    ensures CutTo(v, slot, ch, keep, |ch|) == Cut(v, slot, ch, keep)
  {
    var u, w := CutTo(v, slot, ch, keep, |ch|), Cut(v, slot, ch, keep);
    forall x | 0 <= x < |v.links| ensures u.links[x] == w.links[x] {
      CutToIsCutLinks(v, slot, ch, keep, x);
    }
    forall x | 0 <= x < |v.bits| ensures u.bits[x] == w.bits[x] {
      CutToBits(v, slot, ch, keep, |ch|, x);
      if i :| keep <= i < |ch| && ch[i] == x { assert ch[keep..][i - keep] == x; }
    }
    CutToCells(v, slot, ch, keep, |ch|);
    assert u.links == w.links && u.bits == w.bits && u.table == w.table;
  }

  /** The cell the loop stands on still holds the next block to release. */
  lemma CutToAhead(v: Volume, slot: nat, ch: Chain, keep: nat, upto: nat)
    requires slot < |v.table| && |v.links| == |v.bits|
    requires InBounds(ch, |v.links|) && keep <= upto <= |ch| && Distinct(ch)
    requires Linked(v.table[slot].firstBlock, v.links, ch)
    ensures Deref(CutTo(v, slot, ch, keep, upto), slot, CursorAt(ch, upto)) == At(ch, upto)
  {
    CutToCells(v, slot, ch, keep, upto);
    if upto > 0 { assert v.links[ch[upto - 1]] == At(ch, upto); }
  }
}
