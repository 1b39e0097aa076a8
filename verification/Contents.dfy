/** What a file says: the byte sequence its chain spells, and what copying into the chain does to it.
    Positions in a file are mapped to positions of the data area block by block. Distinct positions stay
    distinct, so copying into one chain patches one file and no other. */
module Contents {
  import opened Osada
  import opened Words
  import opened Volumes

  /** Where byte `k` of the file with chain `ch` lies in the data area. */
  function Pos(ch: Chain, k: nat): nat
    requires k / BLOCK_SIZE < |ch|
  {
    BLOCK_SIZE * ch[k / BLOCK_SIZE] + k % BLOCK_SIZE
  }

  function Bytes(data: seq<byte>, ch: Chain, size: nat): (r: seq<byte>)
    requires Fits(data, ch, size)
    ensures |r| == size
  {
    seq(size, k requires 0 <= k < size => data[Pos(ch, k)])
  }

  /** The content of a live file of a well-formed volume. */
  ghost function FileBytes(v: Volume, reserved: seq<bool>, chains: seq<Chain>, slot: nat): (r: seq<byte>)
    requires WellFormed(v, reserved, chains) && LiveFile(v, slot)
    ensures |r| == v.table[slot].fileSize
  {
    assert ChainOk(v.table[slot], v.links, chains[slot]);
    Bytes(v.data, chains[slot], v.table[slot].fileSize)
  }

  /** The chain has blocks for `size` bytes, and they lie within the data area. */
  predicate Fits(data: seq<byte>, ch: Chain, size: nat) {
    BlocksFor(size) <= |ch| && Within(data, ch)
  }

  predicate Within(data: seq<byte>, ch: Chain) {
    forall i :: 0 <= i < |ch| ==> BLOCK_SIZE * ch[i] + BLOCK_SIZE <= |data|
  }

  ghost predicate Touched(ch: Chain, off: nat, n: nat, x: int)
    requires BlocksFor(off + n) <= |ch|
  {
    exists k :: off <= k < off + n && Pos(ch, k) == x
  }

  /** `data'` is `data` with `buf` copied to the file bytes from `off` on and nothing else changed. */
  ghost predicate IsPatch(data: seq<byte>, data': seq<byte>, ch: Chain, off: nat, buf: seq<byte>)
    requires Fits(data, ch, off + |buf|)
  {
    && |data'| == |data|
    && (forall k :: off <= k < off + |buf| ==> data'[Pos(ch, k)] == buf[k - off])
    && (forall x :: 0 <= x < |data| && !Touched(ch, off, |buf|, x) ==> data'[x] == data[x])
  }

  /** `after` is `before` overwritten with `buf` at `off`; bytes between the old end and `off` are unspecified. */
  ghost predicate Overwritten(before: seq<byte>, after: seq<byte>, off: nat, buf: seq<byte>) {
    && |after| == (if |before| < off + |buf| then off + |buf| else |before|)
    && after[off..off + |buf|] == buf
    && forall k :: 0 <= k < |before| && !(off <= k < off + |buf|) ==> after[k] == before[k]
  }

  ghost predicate InData(chains: seq<Chain>, data: seq<byte>) {
    forall s, i :: 0 <= s < |chains| && 0 <= i < |chains[s]| ==> BLOCK_SIZE * chains[s][i] + BLOCK_SIZE <= |data|
  }

  /** Distinct file bytes lie at distinct places, be it of one file or of two. */
  lemma PosInjective(chains: seq<Chain>, s: nat, k: nat, t: nat, j: nat)
    requires Disjoint(chains) && s < |chains| && t < |chains|
    requires k / BLOCK_SIZE < |chains[s]| && j / BLOCK_SIZE < |chains[t]|
    requires Pos(chains[s], k) == Pos(chains[t], j)
    ensures s == t && k == j
  {
    assert chains[s][k / BLOCK_SIZE] == chains[t][j / BLOCK_SIZE];
  }

  /** A byte of any file that is not one of the bytes written keeps its value. */
  lemma PatchKeeps(chains: seq<Chain>, data: seq<byte>, data': seq<byte>, slot: nat, off: nat, buf: seq<byte>, t: nat, j: nat)
    requires Disjoint(chains) && slot < |chains| && t < |chains| && j / BLOCK_SIZE < |chains[t]|
    requires BlocksFor(off + |buf|) <= |chains[slot]|
    requires InData(chains, data)
    requires IsPatch(data, data', chains[slot], off, buf)
    requires !(t == slot && off <= j < off + |buf|)
    ensures data'[Pos(chains[t], j)] == data[Pos(chains[t], j)]
  {
    var x := Pos(chains[t], j);
    if Touched(chains[slot], off, |buf|, x) {
      var k :| off <= k < off + |buf| && Pos(chains[slot], k) == x;
      PosInjective(chains, slot, k, t, j);
      assert false;
    }
    assert x < |data|;
  }

  /** Copying into the chain overwrites exactly those bytes of the file. */
  lemma PatchOverwrites(chains: seq<Chain>, data: seq<byte>, data': seq<byte>, slot: nat, off: nat, buf: seq<byte>,
                        old_: Chain, size: nat)
    requires Disjoint(chains) && slot < |chains|
    requires InData(chains, data)
    requires old_ <= chains[slot] && BlocksFor(size) <= |old_| && BlocksFor(off + |buf|) <= |chains[slot]|
    requires IsPatch(data, data', chains[slot], off, buf)
    ensures var size' := if size < off + |buf| then off + |buf| else size;
      Overwritten(Bytes(data, old_, size), Bytes(data', chains[slot], size'), off, buf)
  {
    var size' := if size < off + |buf| then off + |buf| else size;
    var before, after := Bytes(data, old_, size), Bytes(data', chains[slot], size');
    forall k | 0 <= k < size && !(off <= k < off + |buf|) ensures after[k] == before[k] {
      PatchKeeps(chains, data, data', slot, off, buf, slot, k);
    }
    assert after[off..off + |buf|] == buf;
  }

  /** The other files' bytes are untouched. */
  lemma PatchSpares(chains: seq<Chain>, data: seq<byte>, data': seq<byte>, slot: nat, off: nat, buf: seq<byte>, t: nat, size: nat)
    requires Disjoint(chains) && slot < |chains| && t < |chains| && t != slot
    requires InData(chains, data)
    requires BlocksFor(size) <= |chains[t]| && BlocksFor(off + |buf|) <= |chains[slot]|
    requires IsPatch(data, data', chains[slot], off, buf)
    ensures Bytes(data', chains[t], size) == Bytes(data, chains[t], size)
  {
    forall k | 0 <= k < size ensures data'[Pos(chains[t], k)] == data[Pos(chains[t], k)] {
      PatchKeeps(chains, data, data', slot, off, buf, t, k);
    }
  }

  // ---------- copying block by block ----------

  /** Within a block, file bytes are consecutive. */
  lemma PosInBlock(ch: Chain, k: nat, d: nat)
    requires k / BLOCK_SIZE < |ch| && k % BLOCK_SIZE + d < BLOCK_SIZE
    ensures (k + d) / BLOCK_SIZE == k / BLOCK_SIZE && Pos(ch, k + d) == Pos(ch, k) + d
  {
  }

  /** Copying the next piece, which does not cross a block boundary, prolongs the patch. */
  lemma PatchStep(data0: seq<byte>, data: seq<byte>, ch: Chain, off: nat, done: seq<byte>, src: seq<byte>)
    requires Distinct(ch) && Fits(data0, ch, off + |done| + |src|) && |src| > 0
    requires (off + |done|) % BLOCK_SIZE + |src| <= BLOCK_SIZE
    requires BlocksFor(off + |done|) <= |ch| && IsPatch(data0, data, ch, off, done)
    ensures (off + |done|) / BLOCK_SIZE < |ch| && Pos(ch, off + |done|) + |src| <= |data|
    ensures IsPatch(data0, Splice(data, Pos(ch, off + |done|), src), ch, off, done + src)
  {
    var k := off + |done|;
    var data' := Splice(data, Pos(ch, k), src);
    forall j | off <= j < k + |src| ensures data'[Pos(ch, j)] == (done + src)[j - off] {
      if j < k {
      } else {
        PosInBlock(ch, k, j - k);
      }
    }
    forall x | 0 <= x < |data0| && !Touched(ch, off, |done + src|, x) ensures data'[x] == data0[x] {
      PatchStepUntouched(data0, data, ch, off, done, src, x);
    }
  }

  lemma PatchStepUntouched(data0: seq<byte>, data: seq<byte>, ch: Chain, off: nat, done: seq<byte>, src: seq<byte>, x: nat)
    requires Distinct(ch) && Fits(data0, ch, off + |done| + |src|) && |src| > 0
    requires (off + |done|) % BLOCK_SIZE + |src| <= BLOCK_SIZE
    requires BlocksFor(off + |done|) <= |ch| && IsPatch(data0, data, ch, off, done)
    requires x < |data0| && !Touched(ch, off, |done + src|, x)
    ensures (off + |done|) / BLOCK_SIZE < |ch| && Pos(ch, off + |done|) + |src| <= |data|
    ensures Splice(data, Pos(ch, off + |done|), src)[x] == data0[x]
  {
    var k := off + |done|;
    TouchedLonger(ch, off, |done|, |src|, x);
    TouchedAt(ch, off, |done|, |src|, x - Pos(ch, k));
  }

  lemma TouchedLonger(ch: Chain, off: nat, n: nat, more: nat, x: nat)
    requires BlocksFor(off + n + more) <= |ch|
    ensures Touched(ch, off, n, x) ==> Touched(ch, off, n + more, x)
  {
    if Touched(ch, off, n, x) {
      var j :| off <= j < off + n && Pos(ch, j) == x;
      assert Pos(ch, j) == x;
    }
  }

  lemma TouchedAt(ch: Chain, off: nat, n: nat, more: nat, d: int)
    requires BlocksFor(off + n + more) <= |ch| && 0 < more && (off + n) % BLOCK_SIZE + more <= BLOCK_SIZE
    ensures 0 <= d < more ==> Touched(ch, off, n + more, Pos(ch, off + n) + d)
  {
    if 0 <= d < more { PosInBlock(ch, off + n, d); }
  }

  // ---------- a request under way ----------

  /** File position `start` is byte `inBlock` of the block at position `i` of the chain. */
  predicate AtPiece(ch: Chain, i: int, inBlock: int, start: nat) {
    start == BLOCK_SIZE * i + inBlock && 0 <= inBlock < BLOCK_SIZE && 0 <= i < |ch|
  }

  lemma FirstPiece(ch: Chain, start: nat, n: nat)
    requires n > 0 && BlocksFor(start + n) <= |ch|
    ensures AtPiece(ch, start / BLOCK_SIZE, start - BLOCK_SIZE * (start / BLOCK_SIZE), start)
    ensures start / BLOCK_SIZE < |ch| && 0 <= start - BLOCK_SIZE * (start / BLOCK_SIZE) < BLOCK_SIZE
  {
  }

  /** A piece that ends a request at `total` or at the end of its block leaves a next block if and only if
      the request goes on, as far as the chain tells. */
  lemma PieceInChain(ch: Chain, i: nat, inBlock: nat, start: nat, n: nat, total: nat)
    requires AtPiece(ch, i, inBlock, start) && BlocksFor(total) <= |ch| && start + n <= total && inBlock + n <= BLOCK_SIZE
    requires inBlock + n == BLOCK_SIZE || start + n == total
    ensures i < |ch|
    ensures start + n < total ==> i + 1 < |ch| && AtPiece(ch, i + 1, 0, start + n)
  {
  }

  lemma FitsLess(data: seq<byte>, ch: Chain, size: nat, more: nat)
    requires Fits(data, ch, more) && size <= more
    ensures Fits(data, ch, size) && BlocksFor(size) <= |ch|
  {
  }

  /** `w` is `v` after the first `n` bytes of `buffer` were copied to the file bytes from `offset` on. */
  ghost predicate Copied(v: Volume, w: Volume, ch: Chain, offset: nat, buffer: seq<byte>, n: nat) {
    && v.table == w.table && v.links == w.links && v.bits == w.bits
    && n <= |buffer| && Fits(v.data, ch, offset + n)
    && IsPatch(v.data, w.data, ch, offset, buffer[..n])
  }

  function CopiedData(v: Volume, at: nat, src: seq<byte>): Volume
    requires at + |src| <= |v.data|
  {
    v.(data := Splice(v.data, at, src))
  }

  lemma CopiedMore(v: Volume, w: Volume, ch: Chain, i: nat, inBlock: nat, offset: nat, buffer: seq<byte>, buffPos: nat, n: nat)
    requires Distinct(ch) && Fits(v.data, ch, offset + |buffer|) && 0 < n && buffPos + n <= |buffer|
    requires AtPiece(ch, i, inBlock, offset + buffPos) && inBlock + n <= BLOCK_SIZE
    requires Copied(v, w, ch, offset, buffer, buffPos)
    ensures BLOCK_SIZE * ch[i] + inBlock + n <= |w.data|
    ensures Copied(v, CopiedData(w, BLOCK_SIZE * ch[i] + inBlock, buffer[buffPos..buffPos + n]), ch, offset, buffer, buffPos + n)
  {
    hide IsPatch, Distinct, Fits, BlocksFor, Splice;
    FitsLess(v.data, ch, offset + buffPos, offset + |buffer|);
    FitsLess(v.data, ch, offset + buffPos + n, offset + |buffer|);
    PatchStep(v.data, w.data, ch, offset, buffer[..buffPos], buffer[buffPos..buffPos + n]);
    assert buffer[..buffPos] + buffer[buffPos..buffPos + n] == buffer[..buffPos + n];
  }

  lemma CopiedNothing(v: Volume, ch: Chain, offset: nat, buffer: seq<byte>)
    requires Fits(v.data, ch, offset + |buffer|)
    ensures Copied(v, v, ch, offset, buffer, 0) && BlocksFor(offset + |buffer|) <= |ch|
  {
  }

  lemma CopiedSameMaps(v: Volume, w: Volume, ch: Chain, offset: nat, buffer: seq<byte>, n: nat)
    requires Copied(v, w, ch, offset, buffer, n)
    ensures v.table == w.table && v.links == w.links && v.bits == w.bits && |v.data| == |w.data|
  {
  }

  // ---------- a read under way ----------

  /** `buff` holds the file bytes from `offset` on, up to position `upto`. */
  predicate Fetched(data: seq<byte>, ch: Chain, offset: nat, upto: nat, buff: seq<byte>) {
    && offset <= upto && Fits(data, ch, upto)
    && buff == Bytes(data, ch, upto)[offset..]
  }

  lemma FetchedNothing(data: seq<byte>, ch: Chain, offset: nat, total: nat)
    requires Fits(data, ch, total) && offset <= total
    ensures Fetched(data, ch, offset, offset, [])
  {
  }

  lemma FetchedMore(data: seq<byte>, ch: Chain, i: nat, inBlock: nat, offset: nat, upto: nat, buff: seq<byte>, n: nat)
    requires Fetched(data, ch, offset, upto, buff) && AtPiece(ch, i, inBlock, upto) && inBlock + n <= BLOCK_SIZE
    requires Fits(data, ch, upto + n)
    ensures BLOCK_SIZE * ch[i] + inBlock + n <= |data|
    ensures Fetched(data, ch, offset, upto + n, buff + data[BLOCK_SIZE * ch[i] + inBlock..BLOCK_SIZE * ch[i] + inBlock + n])
  {
    var base := BLOCK_SIZE * ch[i] + inBlock;
    var piece := data[base..base + n];
    var all := Bytes(data, ch, upto + n);
    forall d | 0 <= d < n ensures all[upto + d] == piece[d] {
    }
    assert all[offset..] == buff + piece;
  }
}
