/** The server: each request resolves its path in the node table and works on the mapped areas. */
module Servers {
  import opened Osada
  import opened Words
  import opened Names
  import opened Trees
  import opened TreeSafety
  import opened TreeLookup
  import opened Volumes
  import opened Contents
  import opened Effects
  import opened Stores
  import opened FileTables
  import opened FileSystems

  class Server {
    const store: Store
    const files: FileTable

    constructor (store: Store)
      requires store.Valid() && TableOk(store.table[..]) && AllStop(store.table[..])
      ensures Valid() && this.store == store
    {
      this.store := store;
      files := new FileTable(store.table);
    }

    ghost function Now(): State
      reads store, store.table, store.links, store.bits, store.data
    {
      State(store.Snapshot(), store.chains)
    }

    ghost predicate Valid()
      reads store, store.table, store.links, store.bits, store.data
    {
      && files.table == store.table && store.Areas() && |store.chains| == store.table.Length
      && Sound(Now(), store.reserved)
    }

    // ---------- requests on files ----------

    method Write(names: seq<Name>, offset: uint32, buffer: seq<byte>) returns (code: Code)
      requires Valid() && offset + |buffer| < 0x8000_0000 && !Locate(store.table[..], names).OnlyDirectories?
      modifies store`chains, store.table, store.links, store.bits, store.data
      ensures Valid() && Step(old(Now()), WriteRequest(names, offset, buffer), code, Now())
    {
      hide WellFormed, AllStop, WriteEffect, Locate, Fields;
      ghost var s := Now();
      var found := files.FindFile(names);
      match found {
        case NotFound => code := ENoEnt;
        case OnlyDirectories(_) => assert false;
        case File(slot) =>
          LocateIsRegular(store.table[..], names);
          code := store.Write(slot, offset, buffer);
      }
      StepServes(s, store.reserved, WriteRequest(names, offset, buffer), code, Now());
    }

    method Truncate(names: seq<Name>, size: uint32) returns (code: Code)
      requires Valid() && !Locate(store.table[..], names).OnlyDirectories?
      modifies store`chains, store.table, store.links, store.bits
      ensures Valid() && Step(old(Now()), TruncateRequest(names, size), code, Now())
    {
      hide WellFormed, AllStop, TruncateEffect, Locate, Fields;
      ghost var s := Now();
      var found := files.FindFile(names);
      match found {
        case NotFound => code := ENoEnt;
        case OnlyDirectories(_) => assert false;
        case File(slot) =>
          LocateIsRegular(store.table[..], names);
          code := store.Truncate(slot, size);
      }
      StepServes(s, store.reserved, TruncateRequest(names, size), code, Now());
    }

    method Unlink(names: seq<Name>) returns (code: Code)
      requires Valid() && !Locate(store.table[..], names).OnlyDirectories?
      modifies store`chains, store.table, store.links, store.bits
      ensures Valid() && Step(old(Now()), UnlinkRequest(names), code, Now())
    {
      hide WellFormed, AllStop, UnlinkEffect, Locate, Fields;
      ghost var s := Now();
      var found := files.FindFile(names);
      match found {
        case NotFound => code := ENoEnt;
        case OnlyDirectories(_) => assert false;
        case File(slot) =>
          LocateIsRegular(store.table[..], names);
          code := store.Unlink(slot);
      }
      StepServes(s, store.reserved, UnlinkRequest(names), code, Now());
    }

    /** Answers with the bytes of the file the path leads to. */
    method Read(names: seq<Name>, offset: uint32, size: uint32) returns (code: Code, r: ReadOutcome)
      requires Valid() && names != []
      requires !IsDirectory(store.table[..], Resolve(store.table[..], names, ROOT))
      ensures Resolve(store.table[..], names, ROOT) == NONE ==> code == ENoEnt
      ensures var slot := Resolve(store.table[..], names, ROOT);
        slot != NONE ==> code == Sexe && slot in Files(Now(), store.reserved) && r == ReadEffect(Files(Now(), store.reserved)[slot], offset, size)
    {
      hide WellFormed, AllStop, Fields, FileBytes, Resolve;
      ResolveIsLive(store.table[..], names, ROOT);
      var slot := files.WalkNodes(names);
      if slot == NONE { return ENoEnt, WildPointer; }
      r := store.Read(slot, offset, size);
      code := Sexe;
    }

    // ---------- requests on the tree ----------

    method Mkdir(names: seq<Name>, junk: seq<byte>) returns (code: Code)
      requires Valid() && |junk| == FILENAME_LENGTH
      modifies store.table
      ensures Valid() && Step(old(Now()), TreeRequest(MkdirOp(names, junk)), code, Now())
    {
      hide WellFormed, AllStop, Fields, Trees.Mkdir;
      ghost var s := Now();
      code := files.Mkdir(names, junk);
      StepServes(s, store.reserved, TreeRequest(MkdirOp(names, junk)), code, Now());
    }

    method Mknod(names: seq<Name>, junk: seq<byte>) returns (code: Code)
      requires Valid() && |junk| == FILENAME_LENGTH
      modifies store.table
      ensures Valid() && Step(old(Now()), TreeRequest(MknodOp(names, junk)), code, Now())
    {
      hide WellFormed, AllStop, Fields, Trees.Mknod;
      ghost var s := Now();
      code := files.Mknod(names, junk);
      StepServes(s, store.reserved, TreeRequest(MknodOp(names, junk)), code, Now());
    }

    method Rmdir(names: seq<Name>) returns (code: Code)
      requires Valid()
      modifies store.table
      ensures Valid() && Step(old(Now()), TreeRequest(RmdirOp(names)), code, Now())
    {
      hide WellFormed, AllStop, Fields, Trees.Rmdir;
      ghost var s := Now();
      code := files.Rmdir(names);
      StepServes(s, store.reserved, TreeRequest(RmdirOp(names)), code, Now());
    }

    method Rename(from: seq<Name>, to: seq<Name>) returns (code: Code)
      requires Valid() && from != []
      modifies store.table
      ensures Valid() && Step(old(Now()), TreeRequest(RenameOp(from, to)), code, Now())
    {
      hide WellFormed, AllStop, Fields, Trees.Rename;
      ghost var s := Now();
      code := files.Rename(from, to);
      StepServes(s, store.reserved, TreeRequest(RenameOp(from, to)), code, Now());
    }
  }

  /** A walk that uses at least one name ends nowhere or at a live node. */
  lemma {:induction false} ResolveIsLive(t: Table, names: seq<Name>, pb: int)
    requires names != []
    ensures Resolve(t, names, pb) == NONE || Live(t, Resolve(t, names, pb))
    decreases |names|
  {
    var s := Search(t, names[0], pb, NONE);
    if s != NONE && |names| > 1 {
      ResolveIsLive(t, names[1..], s);
    } else if |names| == 1 {
      assert names[1..] == [];
    }
  }
}
