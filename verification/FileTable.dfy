/** The directory operations as scans and walks over the mapped slots. */
module FileTables {
  import opened Osada
  import opened Words
  import opened Names
  import opened Trees
  import opened TreeLookup

  /** Each operation leaves the table and sends the reply that `Trees` says. */
  class FileTable {
    const table: array<Node>

    /** The node table of an image that `map_osada_fs` has mapped. */
    constructor (mapped: array<Node>)
      ensures table == mapped
    {
      table := mapped;
    }

    // ---------- scans ----------

    method SearchNode(name: Name, pb: int, ignore: int) returns (r: int)
      ensures r == Search(table[..], name, pb, ignore)
    {
      var i := 0;
      while i < table.Length
        invariant i <= table.Length
        invariant Search(table[..], name, pb, ignore) == SearchFrom(table[..], name, pb, ignore, i)
      {
        if i != pb && i != ignore && table[i].state != Deleted {
          var n := StoredLength(table[i].fname);
          if table[i].fname[..n] == name && table[i].parent == pb { return i; }
        }
        i := i + 1;
      }
      return NONE;
    }

    method SearchDirectory(name: Name, pb: int, ignore: int) returns (r: int)
      ensures r == SearchDir(table[..], name, pb, ignore)
    {
      r := SearchNode(name, pb, ignore);
      if r != NONE && table[r].state != Directory { r := NONE; }
    }

    /** The first free slot, or the table's length. */
    method GetFreeFileBlock(pb: int) returns (i: nat)
      ensures i == (var s := FreeFrom(table[..], pb, 0); if s == NONE then table.Length else s)
    {
      i := 0;
      while i < table.Length
        invariant i <= table.Length
        invariant FreeFrom(table[..], pb, 0) == FreeFrom(table[..], pb, i)
      {
        if i != pb && table[i].state == Deleted { return; }
        i := i + 1;
      }
    }

    /** `create_dir` and `create_node`; the parent is truncated to its 16-bit field. */
    method Create(state: NodeState, name: Name, pb: int, junk: seq<byte>) returns (r: int)
      requires |name| <= |junk| && table.Length <= ROOT
      modifies table
      ensures var s := FreeFrom(old(table[..]), pb, 0);
        r == (if s == NONE then FULL else s) &&
        table[..] == if s == NONE then old(table[..]) else old(table[..])[s := NewNode(state, name, pb % 0x1_0000, junk)]
    {
      var i := GetFreeFileBlock(pb);
      if i == table.Length { return FULL; }
      table[i] := NewNode(state, name, pb % 0x1_0000, junk);
      r := i;
    }

    // ---------- walks ----------

    /** Follows directories while the names lead to one: the directory reached and the names used. */
    method Walk(names: seq<Name>, ignore: int) returns (pb: int, n: nat)
      ensures (pb, n) == WalkDirs(table[..], names, ROOT, ignore)
    {
      hide NameOf, Search, SearchFrom;
      pb, n := ROOT, 0;
      while n < |names|
        invariant n <= |names|
        invariant var r := WalkDirs(table[..], names[n..], pb, ignore); WalkDirs(table[..], names, ROOT, ignore) == (r.0, r.1 + n)
      {
        var d := SearchDirectory(names[n], pb, ignore);
        if d == NONE { return; }
        assert names[n..][1..] == names[n + 1..];
        pb, n := d, n + 1;
      }
    }

    /** The walk of getattr and read. */
    method WalkNodes(names: seq<Name>) returns (r: int)
      ensures r == Resolve(table[..], names, ROOT)
    {
      r := ROOT;
      var i := 0;
      while i < |names|
        invariant i <= |names|
        invariant Resolve(table[..], names, ROOT) == Resolve(table[..], names[i..], r)
      {
        r := SearchNode(names[i], r, NONE);
        if r == NONE { return; }
        assert names[i..][1..] == names[i + 1..];
        i := i + 1;
      }
    }

    /** The walk of write, truncate and unlink. */
    method FindFile(names: seq<Name>) returns (r: Found)
      ensures r == Locate(table[..], names)
    {
      var pb, n := Walk(names, NONE);
      if n == |names| { return OnlyDirectories(pb); }
      if n + 1 < |names| { return NotFound; }
      var s := SearchNode(names[n], pb, NONE);
      r := if s == NONE then NotFound else File(s);
    }

    // ---------- operations ----------

    method Mkdir(names: seq<Name>, junk: seq<byte>) returns (code: Code)
      requires |junk| == FILENAME_LENGTH && table.Length <= ROOT
      modifies table
      ensures Outcome(table[..], code) == Trees.Mkdir(old(table[..]), names, junk)
    {
      hide NameOf, Search, SearchFrom, Stored, FreeFrom;
      var pb: int := ROOT;
      var i := 0;
      while i < |names|
        invariant i <= |names|
        invariant pb == ROOT || Live(table[..], pb) || (pb == FULL && FreeFrom(table[..], FULL, 0) == NONE)
        invariant MkdirFrom(table[..], names[i..], pb, junk) == Trees.Mkdir(old(table[..]), names, junk)
      {
        ghost var t := table[..];
        assert names[i..][1..] == names[i + 1..];
        var d := SearchDirectory(names[i], pb, pb);
        if d == NONE {
          if |names[i]| > FILENAME_LENGTH { return ENameTooLong; }
          d := Create(Directory, names[i], pb, junk);
          if pb == FULL { return ENoSpc; }
          LiveIsNotFree(t, pb, FULL, 0);
        }
        pb, i := d, i + 1;
      }
      return IsDir;
    }

    method Mknod(names: seq<Name>, junk: seq<byte>) returns (code: Code)
      requires |junk| == FILENAME_LENGTH && table.Length <= ROOT
      modifies table
      ensures Outcome(table[..], code) == Trees.Mknod(old(table[..]), names, junk)
    {
      WalkStays(table[..], names, ROOT, NONE);
      var pb, n := Walk(names, NONE);
      if n == |names| { return IsReg; }
      if n + 1 < |names| { return ENotDir; }
      if |names[n]| > FILENAME_LENGTH { return ENameTooLong; }
      var s := Create(Regular, names[n], pb, junk);
      return if s == FULL then ENoSpc else IsReg;
    }

    method Rmdir(names: seq<Name>) returns (code: Code)
      requires table.Length <= ROOT
      modifies table
      ensures Outcome(table[..], code) == Trees.Rmdir(old(table[..]), names)
    {
      WalkStays(table[..], names, ROOT, NONE);
      var pb, n := Walk(names, NONE);
      if n < |names| { return ENotDir; }
      if names != [] { table[pb] := table[pb].(state := Deleted); }
      return Sexe;
    }

    /** The walk from the source takes any node at its last name; the walk to the destination skips the
        source's slot. */
    method Rename(from: seq<Name>, to: seq<Name>) returns (code: Code)
      requires table.Length <= ROOT && Fields(table[..]) && from != []
      modifies table
      ensures Outcome(table[..], code) == Trees.Rename(old(table[..]), from, to)
    {
      WalkStays(table[..], from, ROOT, NONE);
      var pbFrom, n := Walk(from, NONE);
      var f := pbFrom;
      if n < |from| {
        if n + 1 < |from| { return ENoEnt; }
        f := SearchNode(from[n], pbFrom, NONE);
        if f == NONE { return ENoEnt; }
      }
      WalkStays(table[..], to, ROOT, f);
      var pbTo, m := Walk(to, f);
      if m == |to| { return NoReply; }
      if m + 1 < |to| { return ENoEnt; }
      var s := SearchNode(to[m], pbTo, f);
      if s != NONE { return IsReg; }
      if |to[m]| > FILENAME_LENGTH { return ENameTooLong; }
      table[f] := table[f].(parent := pbTo, fname := Stored(table[f].fname, to[m]));
      return Sexe;
    }

    method ListChildren(pb: int) returns (nodes: seq<Name>)
      ensures nodes == Listing(table[..], pb, 0)
    {
      hide NameOf, Listing;
      ghost var t := table[..];
      nodes := [];
      var i := 0;
      while i < table.Length
        invariant i <= table.Length
        invariant Listing(t, pb, 0) == nodes + Listing(t, pb, i)
      {
        ListingStep(t, pb, i);
        var node := table[i];
        assert node == t[i];
        if i != pb && node.state != Deleted && node.parent == pb {
          var size := StoredLength(node.fname);
          nodes := nodes + [node.fname[..size]];
        }
        i := i + 1;
      }
      ListingStep(t, pb, i);
    }

    /** Collects the names under a directory, then joins them. */
    method Readdir(names: seq<Name>) returns (code: Code, reply: seq<byte>)
      ensures var (pb, n) := WalkDirs(table[..], names, ROOT, NONE);
        if n < |names| then code == ENotDir && reply == []
        else code == (if Listing(table[..], pb, 0) == [] then EmptyDir else NotEmptyDir) &&
             reply == JoinEach(COMMA, Listing(table[..], pb, 0))
    {
      hide Listing, WalkDirs;
      var pb, n := Walk(names, NONE);
      if n < |names| { return ENotDir, []; }
      var nodes := ListChildren(pb);
      reply := Join(COMMA, nodes);
      code := if nodes == [] then EmptyDir else NotEmptyDir;
    }
  }

  lemma ListingStep(t: Table, pb: int, i: nat)
    requires i <= |t|
    ensures i == |t| ==> Listing(t, pb, i) == []
    ensures i < |t| && i != pb && Live(t, i) && t[i].parent == pb ==> Listing(t, pb, i) == [NameOf(t[i].fname)] + Listing(t, pb, i + 1)
    ensures i < |t| && !(i != pb && Live(t, i) && t[i].parent == pb) ==> Listing(t, pb, i) == Listing(t, pb, i + 1)
  {
  }

  /** A live slot is never taken for a free one, so skipping it makes no difference. */
  lemma {:induction false} LiveIsNotFree(t: Table, pb: int, pb': int, from: nat)
    requires from <= |t| && (Live(t, pb) || !(0 <= pb < |t|)) && (Live(t, pb') || !(0 <= pb' < |t|))
    ensures FreeFrom(t, pb, from) == FreeFrom(t, pb', from)
    decreases |t| - from
  {
    if from < |t| { LiveIsNotFree(t, pb, pb', from + 1); }
  }
}
