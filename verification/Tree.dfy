/** The directory tree as it is stored: a table of nodes with parent links, searched by first match. */
module Trees {
  import opened Osada
  import opened Words
  import opened Names

  type Table = seq<Node>

  const NONE := -1

  // ---------- looking up ----------

  predicate Live(t: Table, s: int) {
    0 <= s < |t| && t[s].state != Deleted
  }

  predicate IsDirectory(t: Table, s: int) {
    0 <= s < |t| && t[s].state == Directory
  }

  /** A node by that name under that parent. */
  predicate Matches(t: Table, s: int, name: Name, pb: int) {
    Live(t, s) && NameOf(t[s].fname) == name && t[s].parent == pb
  }

  predicate Hit(t: Table, s: int, name: Name, pb: int, ignore: int) {
    s != pb && s != ignore && Matches(t, s, name, pb)
  }

  /** The first hit from slot `from` on, or NONE. */
  function SearchFrom(t: Table, name: Name, pb: int, ignore: int, from: nat): (r: int)
    requires from <= |t|
    ensures r == NONE || (from <= r < |t| && Hit(t, r, name, pb, ignore))
    ensures forall s :: from <= s < (if r == NONE then |t| else r) ==> !Hit(t, s, name, pb, ignore)
    decreases |t| - from
  {
    if from == |t| then NONE
    else if Hit(t, from, name, pb, ignore) then from
    else SearchFrom(t, name, pb, ignore, from + 1)
  }

  function Search(t: Table, name: Name, pb: int, ignore: int): int {
    SearchFrom(t, name, pb, ignore, 0)
  }

  /** Like `Search`, but a first hit that is no directory counts as none. */
  function SearchDir(t: Table, name: Name, pb: int, ignore: int): int {
    var s := Search(t, name, pb, ignore);
    if IsDirectory(t, s) then s else NONE
  }

  /** Follows directories as long as names lead to one: where it ends, and how many names it used. */
  function WalkDirs(t: Table, names: seq<Name>, pb: int, ignore: int): (r: (int, nat))
    ensures r.1 <= |names|
    ensures r.1 < |names| ==> SearchDir(t, names[r.1], r.0, ignore) == NONE
  {
    if names == [] || SearchDir(t, names[0], pb, ignore) == NONE then (pb, 0)
    else
      var r := WalkDirs(t, names[1..], SearchDir(t, names[0], pb, ignore), ignore);
      (r.0, r.1 + 1)
  }

  /** The walk of getattr and read: any live node will do at every step. */
  function Resolve(t: Table, names: seq<Name>, pb: int): int {
    if names == [] then pb
    else
      var s := Search(t, names[0], pb, NONE);
      if s == NONE then NONE else Resolve(t, names[1..], s)
  }

  /** The walk of write, truncate and unlink. */
  datatype Found = NotFound | File(slot: int) | OnlyDirectories(slot: int)

  function Locate(t: Table, names: seq<Name>): Found {
    var (pb, n) := WalkDirs(t, names, ROOT, NONE);
    if n == |names| then OnlyDirectories(pb)
    else if n + 1 < |names| then NotFound
    else
      var s := Search(t, names[n], pb, NONE);
      if s == NONE then NotFound else File(s)
  }

  /** The first free slot, or NONE. */
  function FreeFrom(t: Table, pb: int, from: nat): (r: int)
    requires from <= |t|
    ensures r == NONE || (from <= r < |t| && t[r].state == Deleted)
    decreases |t| - from
  {
    if from == |t| then NONE
    else if from != pb && t[from].state == Deleted then from
    else FreeFrom(t, pb, from + 1)
  }

  // ---------- the operations ----------

  function NewNode(state: NodeState, name: Name, pb: uint16, junk: seq<byte>): Node
    requires |name| <= |junk|
  {
    Node(state, Stored(junk, name), pb, 0, if state == Directory then 0 else END_OF_FILE)
  }

  /** The outcome of a directory operation: the table it leaves and the reply it sends. */
  datatype Outcome = Outcome(table: Table, code: Code)

  /** The "parent" that `mkdir` goes on with when the table is full: it takes -OSADA_ENOSPC for a slot. */
  const FULL := -5

  function MkdirFrom(t: Table, names: seq<Name>, pb: int, junk: seq<byte>): (r: Outcome)
    requires |junk| == FILENAME_LENGTH && |t| <= ROOT && (pb == FULL || 0 <= pb < |t| || pb == ROOT)
    ensures |r.table| == |t|
    decreases |names|
  {
    if names == [] then Outcome(t, IsDir)
    else
      var d := SearchDir(t, names[0], pb, pb);
      if d != NONE then MkdirFrom(t, names[1..], d, junk)
      else if |names[0]| > FILENAME_LENGTH then Outcome(t, ENameTooLong)
      else if pb == FULL then Outcome(t, ENoSpc)
      else
        var s := FreeFrom(t, pb, 0);
        if s == NONE then MkdirFrom(t, names[1..], FULL, junk)
        else MkdirFrom(t[s := NewNode(Directory, names[0], pb, junk)], names[1..], s, junk)
  }

  function Mkdir(t: Table, names: seq<Name>, junk: seq<byte>): Outcome
    requires |junk| == FILENAME_LENGTH && |t| <= ROOT
  {
    MkdirFrom(t, names, ROOT, junk)
  }

  /** The end of a walk from ROOT is ROOT or a slot. */
  lemma {:induction false} WalkStays(t: Table, names: seq<Name>, pb: int, ignore: int)
    requires pb == ROOT || 0 <= pb < |t|
    ensures var r := WalkDirs(t, names, pb, ignore); (r.0 == ROOT || 0 <= r.0 < |t|) && (r.1 > 0 ==> 0 <= r.0 < |t|)
    decreases |names|
  {
    if names != [] && SearchDir(t, names[0], pb, ignore) != NONE {
      WalkStays(t, names[1..], SearchDir(t, names[0], pb, ignore), ignore);
    }
  }

  function Mknod(t: Table, names: seq<Name>, junk: seq<byte>): (r: Outcome)
    requires |junk| == FILENAME_LENGTH && |t| <= ROOT
    ensures |r.table| == |t|
  {
    var (pb, n) := WalkDirs(t, names, ROOT, NONE);
    WalkStays(t, names, ROOT, NONE);
    if n == |names| then Outcome(t, IsReg)
    else if n + 1 < |names| then Outcome(t, ENotDir)
    else if |names[n]| > FILENAME_LENGTH then Outcome(t, ENameTooLong)
    else
      var s := FreeFrom(t, pb, 0);
      if s == NONE then Outcome(t, ENoSpc)
      else Outcome(t[s := NewNode(Regular, names[n], pb, junk)], IsReg)
  }

  function Removed(t: Table, s: int): Table
    requires 0 <= s < |t|
  {
    t[s := t[s].(state := Deleted)]
  }

  function Rmdir(t: Table, names: seq<Name>): (r: Outcome)
    requires |t| <= ROOT
    ensures |r.table| == |t|
  {
    var (pb, n) := WalkDirs(t, names, ROOT, NONE);
    WalkStays(t, names, ROOT, NONE);
    if n < |names| then Outcome(t, ENotDir)
    else if pb == ROOT then Outcome(t, Sexe)
    else Outcome(Removed(t, pb), Sexe)
  }

  function Unlink(t: Table, names: seq<Name>): (r: Outcome)
    requires |t| <= ROOT
    ensures |r.table| == |t|
  {
    match Locate(t, names)
    case File(s) => if 0 <= s < |t| then Outcome(Removed(t, s), Sexe) else Outcome(t, ENoEnt)
    case _ => Outcome(t, ENoEnt)
  }

  function Moved(t: Table, f: int, pb: uint16, name: Name): Table
    requires 0 <= f < |t| && |name| <= |t[f].fname|
  {
    t[f := t[f].(parent := pb, fname := Stored(t[f].fname, name))]
  }

  /** The node a rename starts from, or NONE. */
  function Source(t: Table, from: seq<Name>): int {
    var (pb, n) := WalkDirs(t, from, ROOT, NONE);
    if n == |from| then pb
    else if n + 1 < |from| then NONE
    else Search(t, from[n], pb, NONE)
  }

  predicate Fields(t: Table) {
    forall s :: 0 <= s < |t| ==> |t[s].fname| == FILENAME_LENGTH
  }

  /** A destination that is a directory all the way gets no reply at all. */
  function Rename(t: Table, from: seq<Name>, to: seq<Name>): (r: Outcome)
    requires |t| <= ROOT && Fields(t) && from != []
    ensures |r.table| == |t|
  {
    var f := Source(t, from);
    WalkStays(t, from, ROOT, NONE);
    if f == NONE then Outcome(t, ENoEnt)
    else
      var (pb, n) := WalkDirs(t, to, ROOT, f);
      WalkStays(t, to, ROOT, f);
      if n == |to| then Outcome(t, NoReply)
      else if n + 1 < |to| then Outcome(t, ENoEnt)
      else if Search(t, to[n], pb, f) != NONE then Outcome(t, IsReg)
      else if |to[n]| > FILENAME_LENGTH then Outcome(t, ENameTooLong)
      else Outcome(Moved(t, f, pb, to[n]), Sexe)
  }
}
