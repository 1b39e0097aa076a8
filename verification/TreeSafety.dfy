/** What no run of directory operations can do: make a directory its own ancestor. */
module TreeSafety {
  import opened Osada
  import opened Words
  import opened Names
  import opened Trees

  // ---------- ancestors ----------

  /** The `k`-th ancestor of `s`; dead slots and the root have no parent. */
  function Up(t: Table, s: int, k: nat): int {
    if k == 0 then s
    else
      var p := Up(t, s, k - 1);
      if Live(t, p) then t[p].parent else NONE
  }

  /** No node is its own ancestor. */
  ghost predicate Acyclic(t: Table) {
    forall s, k :: Live(t, s) && k > 0 ==> Up(t, s, k) != s
  }

  /** The climb from `s` leaves the live nodes after at most `k` links. */
  predicate Stops(t: Table, s: int, k: nat)
    decreases k
  {
    !Live(t, s) || (k > 0 && Stops(t, t[s].parent, k - 1))
  }

  ghost predicate ClimbEnds(t: Table, s: int) {
    exists k: nat :: Stops(t, s, k)
  }

  ghost predicate AllStop(t: Table) {
    forall s :: 0 <= s < |t| ==> ClimbEnds(t, s)
  }

  /** `s` hangs below the root by at most `k` links through live directories, none of which is `f`. */
  predicate Hangs(t: Table, s: int, k: nat, f: int)
    decreases k
  {
    s == ROOT ||
    (k > 0 && s != f && Live(t, s) && (t[s].parent == ROOT || IsDirectory(t, t[s].parent)) && Hangs(t, t[s].parent, k - 1, f))
  }

  lemma {:induction false} StopsUp(t: Table, s: int, n: nat, k: nat)
    requires Stops(t, s, n)
    ensures Stops(t, Up(t, s, k), if n >= k then n - k else 0)
  {
    if k > 0 { StopsUp(t, s, n, k - 1); }
  }

  lemma {:induction false} NoReturn(t: Table, s: int, n: nat, k: nat)
    requires Stops(t, s, n) && Live(t, s) && k > 0
    ensures Up(t, s, k) != s
    decreases n
  {
    StopsUp(t, s, n, k);
    if Up(t, s, k) == s {
      NoReturn(t, s, if n >= k then n - k else 0, k);
      assert false;
    }
  }

  lemma StoppingIsAcyclic(t: Table)
    requires AllStop(t)
    ensures Acyclic(t)
  {
    forall s, k: nat | Live(t, s) && k > 0 ensures Up(t, s, k) != s {
      assert ClimbEnds(t, s);
      var n: nat :| Stops(t, s, n);
      NoReturn(t, s, n, k);
    }
  }

  // ---------- hanging a node elsewhere ----------

  /** A climb that avoids `f` still stops after `f` has changed. */
  lemma {:induction false} HangsStops(t: Table, t': Table, s: int, k: nat, f: int)
    requires |t'| == |t| <= ROOT && Hangs(t, s, k, f)
    requires forall x :: 0 <= x < |t| && x != f ==> t'[x] == t[x]
    ensures Stops(t', s, k)
    decreases k
  {
    if s != ROOT { HangsStops(t, t', t[s].parent, k - 1, f); }
  }

  /** Giving `f` a parent whose climb avoids `f` leaves every climb finite. */
  lemma {:induction false} StopsAfter(t: Table, t': Table, s: int, k: nat, f: int, m: nat) returns (k': nat)
    requires |t'| == |t| <= ROOT && 0 <= f < |t| && Stops(t, s, k)
    requires forall x :: 0 <= x < |t| && x != f ==> t'[x] == t[x]
    requires Hangs(t, t'[f].parent, m, f)
    ensures Stops(t', s, k')
    decreases k
  {
    if s == f {
      HangsStops(t, t', t'[f].parent, m, f);
      k' := m + 1;
    } else if !Live(t, s) {
      k' := 0;
    } else {
      var k1 := StopsAfter(t, t', t[s].parent, k - 1, f, m);
      k' := k1 + 1;
    }
  }

  lemma ReparentKeeps(t: Table, t': Table, f: int, m: nat)
    requires |t'| == |t| <= ROOT && 0 <= f < |t| && AllStop(t)
    requires forall x :: 0 <= x < |t| && x != f ==> t'[x] == t[x]
    requires Hangs(t, t'[f].parent, m, f)
    ensures AllStop(t')
  {
    forall s | 0 <= s < |t'| ensures ClimbEnds(t', s) {
      assert ClimbEnds(t, s);
      var k: nat :| Stops(t, s, k);
      var k' := StopsAfter(t, t', s, k, f, m);
    }
  }

  lemma {:induction false} RemovedStops(t: Table, x: int, s: int, k: nat)
    requires 0 <= x < |t| && Stops(t, s, k)
    ensures Stops(Removed(t, x), s, k)
    decreases k
  {
    if Live(t, s) { RemovedStops(t, x, t[s].parent, k - 1); }
  }

  lemma RemoveKeeps(t: Table, x: int)
    requires 0 <= x < |t| && AllStop(t)
    ensures AllStop(Removed(t, x))
  {
    forall s | 0 <= s < |t| ensures ClimbEnds(Removed(t, x), s) {
      assert ClimbEnds(t, s);
      var k: nat :| Stops(t, s, k);
      RemovedStops(t, x, s, k);
    }
  }

  // ---------- where walks end ----------

  /** Every walk that starts below the root and skips `ignore` ends below the root, by a climb that
      avoids `ignore`. */
  lemma {:induction false} WalkHangs(t: Table, names: seq<Name>, pb: int, ignore: int, k: nat)
    requires Hangs(t, pb, k, ignore) && (pb == ROOT || IsDirectory(t, pb))
    ensures var (q, n) := WalkDirs(t, names, pb, ignore);
      Hangs(t, q, k + n, ignore) && (q == ROOT || IsDirectory(t, q))
    decreases |names|
  {
    if names != [] && SearchDir(t, names[0], pb, ignore) != NONE {
      WalkHangs(t, names[1..], SearchDir(t, names[0], pb, ignore), ignore, k + 1);
    }
  }

  /** A climb through live nodes avoids every dead slot. */
  lemma {:induction false} HangsAvoids(t: Table, s: int, k: nat, f: int)
    requires Hangs(t, s, k, NONE) && !Live(t, f)
    ensures Hangs(t, s, k, f)
    decreases k
  {
    if s != ROOT { HangsAvoids(t, t[s].parent, k - 1, f); }
  }

  // ---------- no operation closes a cycle ----------

  /** Changing only `f`, which the climb avoids, does not shake it. */
  lemma {:induction false} HangsSame(t: Table, t': Table, s: int, k: nat, f: int, g: int)
    requires |t'| == |t| && Hangs(t, s, k, f) && Hangs(t, s, k, g)
    requires forall x :: 0 <= x < |t| && x != f ==> t'[x] == t[x]
    ensures Hangs(t', s, k, g)
    decreases k
  {
    if s != ROOT { HangsSame(t, t', t[s].parent, k - 1, f, g); }
  }

  lemma {:induction false} MkdirKeeps(t: Table, names: seq<Name>, pb: int, junk: seq<byte>, k: nat)
    requires |junk| == FILENAME_LENGTH && |t| <= ROOT && AllStop(t)
    requires pb == FULL || (Hangs(t, pb, k, NONE) && (pb == ROOT || IsDirectory(t, pb)))
    ensures AllStop(MkdirFrom(t, names, pb, junk).table)
    decreases |names|
  {
    if names != [] {
      var d := SearchDir(t, names[0], pb, pb);
      if d != NONE {
        MkdirKeeps(t, names[1..], d, junk, if pb == FULL then 0 else k + 1);
      } else if |names[0]| <= FILENAME_LENGTH && pb != FULL {
        var s := FreeFrom(t, pb, 0);
        if s == NONE {
          MkdirKeeps(t, names[1..], FULL, junk, 0);
        } else {
          var t' := t[s := NewNode(Directory, names[0], pb, junk)];
          HangsAvoids(t, pb, k, s);
          ReparentKeeps(t, t', s, k);
          HangsSame(t, t', pb, k, s, NONE);
          MkdirKeeps(t', names[1..], s, junk, k + 1);
        }
      }
    }
  }

  lemma MknodKeeps(t: Table, names: seq<Name>, junk: seq<byte>)
    requires |junk| == FILENAME_LENGTH && |t| <= ROOT && AllStop(t)
    ensures AllStop(Mknod(t, names, junk).table)
  {
    var (pb, n) := WalkDirs(t, names, ROOT, NONE);
    WalkHangs(t, names, ROOT, NONE, 0);
    WalkStays(t, names, ROOT, NONE);
    if n + 1 == |names| && |names[n]| <= FILENAME_LENGTH && FreeFrom(t, pb, 0) != NONE {
      var s := FreeFrom(t, pb, 0);
      HangsAvoids(t, pb, n, s);
      ReparentKeeps(t, t[s := NewNode(Regular, names[n], pb, junk)], s, n);
    }
  }

  lemma RmdirKeeps(t: Table, names: seq<Name>)
    requires |t| <= ROOT && AllStop(t)
    ensures AllStop(Rmdir(t, names).table)
  {
    var (pb, n) := WalkDirs(t, names, ROOT, NONE);
    WalkStays(t, names, ROOT, NONE);
    if n == |names| && pb != ROOT { RemoveKeeps(t, pb); }
  }

  lemma UnlinkKeeps(t: Table, names: seq<Name>)
    requires |t| <= ROOT && AllStop(t)
    ensures AllStop(Unlink(t, names).table)
  {
    match Locate(t, names) {
      case File(s) => if 0 <= s < |t| { RemoveKeeps(t, s); }
      case _ =>
    }
  }

  /** The walk to the destination skips the node being moved, so the new parent never hangs below it. */
  lemma RenameKeeps(t: Table, from: seq<Name>, to: seq<Name>)
    requires |t| <= ROOT && Fields(t) && from != [] && AllStop(t)
    ensures AllStop(Rename(t, from, to).table)
  {
    var f := Source(t, from);
    WalkStays(t, from, ROOT, NONE);
    if f != NONE {
      var (pb, n) := WalkDirs(t, to, ROOT, f);
      WalkStays(t, to, ROOT, f);
      WalkHangs(t, to, ROOT, f, 0);
      if n + 1 == |to| && Search(t, to[n], pb, f) == NONE && |to[n]| <= FILENAME_LENGTH {
        ReparentKeeps(t, Moved(t, f, pb, to[n]), f, n);
      }
    }
  }

  // ---------- runs ----------

  datatype Op =
    | MkdirOp(names: seq<Name>, junk: seq<byte>)
    | MknodOp(names: seq<Name>, junk: seq<byte>)
    | RmdirOp(names: seq<Name>)
    | UnlinkOp(names: seq<Name>)
    | RenameOp(from: seq<Name>, to: seq<Name>)

  predicate Possible(op: Op) {
    match op
    case MkdirOp(_, junk) => |junk| == FILENAME_LENGTH
    case MknodOp(_, junk) => |junk| == FILENAME_LENGTH
    case RenameOp(from, _) => from != []
    case _ => true
  }

  predicate TableOk(t: Table) {
    |t| <= ROOT && Fields(t)
  }

  function Apply(t: Table, op: Op): (r: Outcome)
    requires TableOk(t) && Possible(op)
  {
    match op
    case MkdirOp(names, junk) => Mkdir(t, names, junk)
    case MknodOp(names, junk) => Mknod(t, names, junk)
    case RmdirOp(names) => Rmdir(t, names)
    case UnlinkOp(names) => Unlink(t, names)
    case RenameOp(from, to) => Rename(t, from, to)
  }

  lemma {:induction false} MkdirFields(t: Table, names: seq<Name>, pb: int, junk: seq<byte>)
    requires |junk| == FILENAME_LENGTH && TableOk(t) && (pb == FULL || 0 <= pb < |t| || pb == ROOT)
    ensures TableOk(MkdirFrom(t, names, pb, junk).table)
    decreases |names|
  {
    if names != [] {
      var d := SearchDir(t, names[0], pb, pb);
      if d != NONE {
        MkdirFields(t, names[1..], d, junk);
      } else if |names[0]| <= FILENAME_LENGTH && pb != FULL {
        var s := FreeFrom(t, pb, 0);
        if s == NONE {
          MkdirFields(t, names[1..], FULL, junk);
        } else {
          MkdirFields(t[s := NewNode(Directory, names[0], pb, junk)], names[1..], s, junk);
        }
      }
    }
  }

  /** Every name field keeps its 17 bytes. */
  lemma FieldsKept(t: Table, op: Op)
    requires TableOk(t) && Possible(op)
    ensures TableOk(Apply(t, op).table)
  {
    match op {
      case MkdirOp(names, junk) => MkdirFields(t, names, ROOT, junk);
      case _ =>
    }
  }

  function Run(t: Table, ops: seq<Op>): (r: Table)
    requires TableOk(t) && forall i :: 0 <= i < |ops| ==> Possible(ops[i])
    decreases |ops|
  {
    if ops == [] then t
    else
      FieldsKept(t, ops[0]);
      Run(Apply(t, ops[0]).table, ops[1..])
  }

  lemma ApplyKeeps(t: Table, op: Op)
    requires TableOk(t) && Possible(op) && AllStop(t)
    ensures AllStop(Apply(t, op).table)
  {
    match op {
      case MkdirOp(names, junk) => MkdirKeeps(t, names, ROOT, junk, 0);
      case MknodOp(names, junk) => MknodKeeps(t, names, junk);
      case RmdirOp(names) => RmdirKeeps(t, names);
      case UnlinkOp(names) => UnlinkKeeps(t, names);
      case RenameOp(from, to) => RenameKeeps(t, from, to);
    }
  }

  lemma {:induction false} RunKeeps(t: Table, ops: seq<Op>)
    requires TableOk(t) && AllStop(t) && forall i :: 0 <= i < |ops| ==> Possible(ops[i])
    ensures AllStop(Run(t, ops))
    decreases |ops|
  {
    if ops != [] {
      FieldsKept(t, ops[0]);
      ApplyKeeps(t, ops[0]);
      RunKeeps(Apply(t, ops[0]).table, ops[1..]);
    }
  }

  lemma EmptyStops(t: Table)
    requires forall s :: 0 <= s < |t| ==> t[s].state == Deleted
    ensures AllStop(t)
  {
    forall s | 0 <= s < |t| ensures ClimbEnds(t, s) {
      assert Stops(t, s, 0);
    }
  }

  /** From an empty table, no run of mkdir, mknod, rmdir, unlink and rename, whatever it removes or
      renames, makes a node its own ancestor. */
  lemma NoRunMakesACycle(t: Table, ops: seq<Op>)
    requires TableOk(t) && (forall s :: 0 <= s < |t| ==> t[s].state == Deleted)
    requires forall i :: 0 <= i < |ops| ==> Possible(ops[i])
    ensures Acyclic(Run(t, ops))
  {
    EmptyStops(t);
    RunKeeps(t, ops);
    StoppingIsAcyclic(Run(t, ops));
  }
}
