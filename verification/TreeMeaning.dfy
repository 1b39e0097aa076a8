/** What a reply to a directory request means: which node changed, how, and where paths lead afterwards. */
module TreeMeaning {
  import opened Osada
  import opened Words
  import opened Names
  import opened Trees
  import opened TreeSafety
  import opened TreeLookup
  import opened Paths

  // ---------- free slots ----------

  predicate IsFull(t: Table) {
    forall x :: 0 <= x < |t| ==> t[x].state != Deleted
  }

  predicate FirstFree(t: Table, s: int) {
    0 <= s < |t| && t[s].state == Deleted && forall x :: 0 <= x < s ==> t[x].state != Deleted
  }

  lemma FreeIsFirst(t: Table, pb: int)
    requires |t| <= ROOT && Holder(t, pb)
    ensures var s := FreeFrom(t, pb, 0); if s == NONE then IsFull(t) else FirstFree(t, s)
  {
    FreeFromIs(t, pb, 0);
  }

  lemma {:induction false} FreeFromIs(t: Table, pb: int, from: nat)
    requires from <= |t| && (pb >= |t| || Live(t, pb))
    ensures var s := FreeFrom(t, pb, from);
      forall x :: from <= x < (if s == NONE then |t| else s) ==> t[x].state != Deleted
    decreases |t| - from
  {
    if from < |t| { FreeFromIs(t, pb, from + 1); }
  }

  // ---------- one slot changes ----------

  predicate OnlyAt(t: Table, t': Table, f: int) {
    |t'| == |t| && 0 <= f < |t| && forall x :: 0 <= x < |t| && x != f ==> t'[x] == t[x]
  }

  /** Paths that do without the node stay. */
  lemma {:induction false} SpellsElsewhere(u: Table, t': Table, f: int, x: int, q: seq<Name>)
    requires OnlyAt(u, t', f) && !Live(u, f) && Spells(u, x, q)
    ensures Spells(t', x, q)
    decreases |q|
  {
    if q != [] { SpellsElsewhere(u, t', f, u[x].parent, q[..|q| - 1]); }
  }

  lemma ParentHolds(u: Table, t': Table, f: int, d: int)
    requires OnlyAt(u, t', f) && !Live(u, f) && Holder(u, d)
    ensures Holder(t', d)
  {
  }

  /** Removing a node takes away its path and the paths that go on below it, and no other. */
  lemma {:induction false} RemovedPaths(t: Table, d: int, names: seq<Name>, x: int, q: seq<Name>)
    requires |t| <= ROOT && Unique(t) && Live(t, d) && names != [] && Spells(t, d, names)
    ensures Spells(Removed(t, d), x, q) <==> Spells(t, x, q) && !(names <= q)
    decreases |q|
  {
    hide NameOf, Unique;
    if q != [] {
      var n := |q| - 1;
      if x == d {
        if Spells(t, d, q) { OnePath(t, d, q, names); }
      } else if Live(t, x) {
        var p := t[x].parent;
        RemovedPaths(t, d, names, p, q[..n]);
        if Spells(t, x, q) && names <= q {
          if names == q { OneNode(t, x, d, q); } else { assert names <= q[..n]; }
        }
        if p == d && Spells(t, x, q) {
          OnePath(t, d, q[..n], names);
          assert names <= q;
        }
      }
    }
  }

  // ---------- mknod ----------

  /** Slot `s`, the first that was free, holds a new empty file with the path `names`. */
  ghost predicate IsNewFile(t: Table, t': Table, s: int, names: seq<Name>) {
    && names != [] && OnlyAt(t, t', s) && FirstFree(t, s)
    && t'[s].state == Regular && t'[s].fileSize == 0 && t'[s].firstBlock == END_OF_FILE
    && |t'[s].fname| == FILENAME_LENGTH && NameOf(t'[s].fname) == names[|names| - 1]
    && Spells(t, t'[s].parent, names[..|names| - 1]) && Holder(t, t'[s].parent)
  }

  /** A file can be made: its path is no directory's, and the path above it is. */
  ghost predicate HasPlace(t: Table, names: seq<Name>) {
    names != [] && !IsDirPath(t, names) && IsDirPath(t, names[..|names| - 1])
  }

  lemma MknodMeans(t: Table, names: seq<Name>, junk: seq<byte>)
    requires |junk| == FILENAME_LENGTH && Clean(t) && forall i :: 0 <= i < |names| ==> Nameable(names[i])
    ensures var r := Mknod(t, names, junk);
      && (IsDirPath(t, names) ==> r == Outcome(t, IsReg))
      && (!IsDirPath(t, names) && !HasPlace(t, names) ==> r == Outcome(t, ENotDir))
      && (HasPlace(t, names) && |names[|names| - 1]| > FILENAME_LENGTH ==> r == Outcome(t, ENameTooLong))
      && (HasPlace(t, names) && |names[|names| - 1]| <= FILENAME_LENGTH && IsFull(t) ==> r == Outcome(t, ENoSpc))
      && (HasPlace(t, names) && |names[|names| - 1]| <= FILENAME_LENGTH && !IsFull(t) ==>
           r.code == IsReg && exists s :: IsNewFile(t, r.table, s, names))
  {
    hide WalkDirs, Spells, NameOf, Unique, FreeFrom;
    var (d, n) := WalkDirs(t, names, ROOT, NONE);
    WalkIff(t, names);
    WalkStays(t, names, ROOT, NONE);
    RootPath(t);
    if n < |names| {
      LastStep(t, names);
      if n + 1 == |names| && |names[n]| <= FILENAME_LENGTH {
        FreeIsFirst(t, d);
        NameSurvives(junk, names[n]);
        if !IsFull(t) { assert IsNewFile(t, Mknod(t, names, junk).table, FreeFrom(t, d, 0), names); }
      }
    }
  }

  lemma RootPath(t: Table)
    ensures IsDirPath(t, [])
  {
    assert Spells(t, ROOT, []);
  }

  /** Where paths lead once a file was made under a path that nothing had. */
  lemma MknodPaths(t: Table, t': Table, s: int, names: seq<Name>)
    requires Good(t) && IsNewFile(t, t', s, names) && !IsTaken(t, names) && Nameable(names[|names| - 1])
    ensures Good(t') && Locate(t', names) == File(s)
    ensures forall x, q :: Spells(t', x, q) <==> Spells(t, x, q) || (x == s && q == names)
  {
    hide Good, NameOf, WalkDirs, Locate;
    NewFileGood(t, t', s, names);
    GoodIsClean(t');
    forall x, q ensures Spells(t', x, q) <==> Spells(t, x, q) || (x == s && q == names) {
      NewFilePath(t, t', s, names, x, q);
    }
    LocateIff(t', names);
    assert Spells(t', s, names) && !Holder(t', s) by { NewFilePath(t, t', s, names, s, names); }
  }

  lemma NewFileGood(t: Table, t': Table, s: int, names: seq<Name>)
    requires Good(t) && IsNewFile(t, t', s, names) && !IsTaken(t, names) && Nameable(names[|names| - 1])
    ensures Good(t') && |t'| <= ROOT
  {
    hide NameOf, AllRooted, Unique, WellNamed;
    var d, before := t'[s].parent, names[..|names| - 1];
    SpellsPath(t, d, before);
    HangsAvoids(t, d, |before|, s);
    PlacingKeepsGood(t, t', s, |before|, names[|names| - 1]);
    DeadIgnored(t, names[|names| - 1], d, s, 0);
    GoodIsClean(t);
    FoundThere(t, names, d, Search(t, names[|names| - 1], d, NONE));
  }

  lemma {:induction false} NewFilePath(t: Table, t': Table, s: int, names: seq<Name>, x: int, q: seq<Name>)
    requires |t| <= ROOT && IsNewFile(t, t', s, names)
    ensures Spells(t', x, q) <==> Spells(t, x, q) || (x == s && q == names)
    ensures !Holder(t', s)
    decreases |q|
  {
    hide NameOf;
    if q != [] {
      var n := |q| - 1;
      if x == s {
        var d, before := t'[s].parent, names[..|names| - 1];
        SpellsElsewhere(t, t', s, d, before);
        if Spells(t', s, q) {
          OnePath(t', d, q[..n], before);
          assert q == q[..n] + [q[n]] && names == before + [names[|names| - 1]];
        }
      } else if Live(t, x) {
        NewFilePath(t, t', s, names, t[x].parent, q[..n]);
      }
    }
  }

  // ---------- rmdir, unlink ----------

  lemma RmdirMeans(t: Table, names: seq<Name>)
    requires Clean(t)
    ensures names == [] ==> Rmdir(t, names) == Outcome(t, Sexe)
    ensures names != [] ==> forall d :: Spells(t, d, names) && Holder(t, d) ==>
      Live(t, d) && Rmdir(t, names) == Outcome(Removed(t, d), Sexe)
    ensures !IsDirPath(t, names) ==> Rmdir(t, names) == Outcome(t, ENotDir)
  {
    hide WalkDirs, Spells, Unique;
    WalkIff(t, names);
    RootPath(t);
    if names == [] { assert Spells(t, ROOT, []) by { RootSpells(t); } }
    forall d | names != [] && Spells(t, d, names) && Holder(t, d) ensures Live(t, d) && d != ROOT { NotRoot(t, d, names); }
  }

  lemma RootSpells(t: Table)
    ensures Spells(t, ROOT, [])
  {
  }

  lemma UnlinkTreeMeans(t: Table, names: seq<Name>)
    requires Clean(t)
    ensures forall s :: Spells(t, s, names) && !Holder(t, s) ==> Live(t, s) && Unlink(t, names) == Outcome(Removed(t, s), Sexe)
    ensures (forall s :: Spells(t, s, names) ==> Holder(t, s)) ==> Unlink(t, names) == Outcome(t, ENoEnt)
  {
    hide Locate, Spells, Unique;
    LocateIff(t, names);
    if Locate(t, names).File? { LocateSpells(t, names); }
    forall s | Spells(t, s, names) && !Holder(t, s) ensures Live(t, s) && Locate(t, names) == File(s) {
      LocateSpells(t, names);
    }
  }

  // ---------- rename ----------

  /** Node `f` has the name and the directory of `to`, found in the tree without it, and is otherwise the
      node it was. */
  ghost predicate IsMoved(t: Table, t': Table, f: int, to: seq<Name>) {
    && to != [] && OnlyAt(t, t', f)
    && t'[f].state == t[f].state && t'[f].fileSize == t[f].fileSize && t'[f].firstBlock == t[f].firstBlock
    && |t'[f].fname| == |t[f].fname| && NameOf(t'[f].fname) == to[|to| - 1]
    && Spells(Removed(t, f), t'[f].parent, to[..|to| - 1]) && Holder(Removed(t, f), t'[f].parent)
  }

  /** What a rename of node `f` answers, in terms of the tree without `f`. */
  lemma RenameMeans(t: Table, from: seq<Name>, to: seq<Name>, f: int)
    requires Clean(t) && Fields(t) && from != [] && Spells(t, f, from) && forall i :: 0 <= i < |to| ==> Nameable(to[i])
    ensures Live(t, f)
    ensures var r, u := Rename(t, from, to), Removed(t, f);
      && (IsDirPath(u, to) ==> r == Outcome(t, NoReply))
      && (!IsDirPath(u, to) && !HasPlace(u, to) ==> r == Outcome(t, ENoEnt))
      && (HasPlace(u, to) && IsTaken(u, to) ==> r == Outcome(t, IsReg))
      && (HasPlace(u, to) && !IsTaken(u, to) && |to[|to| - 1]| > FILENAME_LENGTH ==> r == Outcome(t, ENameTooLong))
      && (HasPlace(u, to) && !IsTaken(u, to) && |to[|to| - 1]| <= FILENAME_LENGTH ==>
           r.code == Sexe && IsMoved(t, r.table, f, to))
  {
    hide WalkDirs, Spells, NameOf, Unique, Search, Source;
    NotRoot(t, f, from);
    SourceIff(t, from, f);
    var u := Removed(t, f);
    RemovedClean(t, f);
    WalkSkips(t, f, to, ROOT);
    var (d, n) := WalkDirs(u, to, ROOT, NONE);
    WalkIff(u, to);
    WalkStays(t, to, ROOT, f);
    RootPath(u);
    if n < |to| {
      LastStep(u, to);
      if n + 1 == |to| {
        SkipIsRemoved(t, f, to[n], d);
        var w := Search(u, to[n], d, NONE);
        assert w != NONE ==> Spells(u, w, to);
        assert IsTaken(u, to) <==> w != NONE;
        NameSurvives(t[f].fname, if |to[n]| <= FILENAME_LENGTH then to[n] else []);
      }
    }
  }

  /** Nothing there to rename. */
  lemma RenameNothing(t: Table, from: seq<Name>, to: seq<Name>)
    requires Clean(t) && Fields(t) && from != [] && !IsTaken(t, from)
    ensures Rename(t, from, to) == Outcome(t, ENoEnt)
  {
    SourceNone(t, from);
  }

  /** The path of a node after a rename: the front is exchanged if it is the path renamed. */
  function Renamed(from: seq<Name>, to: seq<Name>, q: seq<Name>): seq<Name> {
    if from <= q then to + q[|from|..] else q
  }

  /** A successful rename moves the node and everything below it, and nothing else. */
  lemma RenameMoves(t: Table, from: seq<Name>, to: seq<Name>, f: int)
    requires Good(t) && from != [] && Spells(t, f, from) && forall i :: 0 <= i < |to| ==> Nameable(to[i])
    requires Rename(t, from, to).code == Sexe
    ensures var t' := Rename(t, from, to).table;
      && Good(t') && IsMoved(t, t', f, to) && Spells(t', f, to) && Resolve(t', to, ROOT) == f
      && forall x, q :: Spells(t, x, q) ==> Spells(t', x, Renamed(from, to, q))
  {
    hide Good, Spells, NameOf, Rename, Resolve, IsMoved, Renamed;
    GoodIsClean(t);
    GoodFields(t);
    RenameGood(t, from, to);
    RenameMeans(t, from, to, f);
    var t' := Rename(t, from, to).table;
    MovedThere(t, t', f, to);
    ResolveIff(t', to, f);
    forall x, q | Spells(t, x, q) ensures Spells(t', x, Renamed(from, to, q)) {
      MovedPath(t, t', f, from, to, x, q);
    }
  }

  lemma GoodFields(t: Table)
    requires Good(t)
    ensures Fields(t)
  {
  }

  lemma MovedThere(t: Table, t': Table, f: int, to: seq<Name>)
    requires IsMoved(t, t', f, to) && Live(t, f)
    ensures Spells(t', f, to) && OnlyAt(Removed(t, f), t', f) && !Live(Removed(t, f), f)
  {
    hide NameOf;
    SpellsElsewhere(Removed(t, f), t', f, t'[f].parent, to[..|to| - 1]);
    ParentHolds(Removed(t, f), t', f, t'[f].parent);
  }

  lemma RenamedSnoc(from: seq<Name>, to: seq<Name>, q: seq<Name>)
    requires from <= q && from != q
    ensures var n := |q| - 1; n >= 0 && from <= q[..n] && Renamed(from, to, q) == Renamed(from, to, q[..n]) + [q[n]]
  {
    var n := |q| - 1;
    assert q[|from|..] == q[..n][|from|..] + [q[n]];
  }

  lemma RenamedSelf(from: seq<Name>, to: seq<Name>)
    ensures Renamed(from, to, from) == to
  {
  }

  /** The other nodes are what they were, and directories stay directories. */
  lemma OthersStay(t: Table, t': Table, f: int, to: seq<Name>, x: int, q: seq<Name>)
    requires IsMoved(t, t', f, to) && x != f && q != [] && Spells(t, x, q)
    ensures Live(t', x) && t'[x] == t[x] && Holder(t', t'[x].parent) && Spells(t, t[x].parent, q[..|q| - 1])
    ensures NameOf(t'[x].fname) == q[|q| - 1]
  {
    hide NameOf;
  }

  lemma {:induction false} MovedPath(t: Table, t': Table, f: int, from: seq<Name>, to: seq<Name>, x: int, q: seq<Name>)
    requires Clean(t) && IsMoved(t, t', f, to) && Live(t, f) && from != [] && Spells(t, f, from) && Spells(t, x, q)
    ensures Spells(t', x, Renamed(from, to, q))
    decreases |q|
  {
    hide NameOf, Unique, IsMoved, Renamed, Spells;
    MovedThere(t, t', f, to);
    if from <= q {
      if q == from {
        OneNode(t, x, f, q);
        RenamedSelf(from, to);
      } else {
        var n := |q| - 1;
        RenamedSnoc(from, to, q);
        if x == f { OnePath(t, f, q, from); }
        OthersStay(t, t', f, to, x, q);
        MovedPath(t, t', f, from, to, t[x].parent, q[..n]);
        SpellsSnoc(t', x, Renamed(from, to, q[..n]), q[n]);
      }
    } else {
      RemovedPaths(t, f, from, x, q);
      SpellsElsewhere(Removed(t, f), t', f, x, q);
      RenamedOther(from, to, q);
    }
  }

  lemma RenamedOther(from: seq<Name>, to: seq<Name>, q: seq<Name>)
    requires !(from <= q)
    ensures Renamed(from, to, q) == q
  {
  }

  // ---------- readdir ----------

  predicate IsChild(t: Table, pb: int, x: int) {
    Live(t, x) && t[x].parent == pb && x != pb
  }

  ghost predicate Ascending(q: seq<int>) {
    forall i, j :: 0 <= i < j < |q| ==> q[i] < q[j]
  }

  /** A listing names the children of a directory, all of them and no other node, once each, in slot order. */
  lemma ListingIs(t: Table, pb: int) returns (slots: seq<int>)
    ensures Ascending(slots) && (forall x :: x in slots <==> IsChild(t, pb, x))
    ensures |Listing(t, pb, 0)| == |slots|
    ensures forall i :: 0 <= i < |slots| ==> Live(t, slots[i]) && Listing(t, pb, 0)[i] == NameOf(t[slots[i]].fname)
  {
    slots := ListingFrom(t, pb, 0);
  }

  lemma {:induction false} ListingFrom(t: Table, pb: int, from: nat) returns (slots: seq<int>)
    requires from <= |t|
    ensures Ascending(slots) && (forall x :: x in slots <==> from <= x && IsChild(t, pb, x))
    ensures |Listing(t, pb, from)| == |slots|
    ensures forall i :: 0 <= i < |slots| ==> Live(t, slots[i]) && Listing(t, pb, from)[i] == NameOf(t[slots[i]].fname)
    decreases |t| - from
  {
    hide NameOf, Listing, IsChild, Ascending;
    ListingUnfolds(t, pb, from);
    if from == |t| {
      slots := [];
      NoneAscending(t, pb);
    } else {
      var rest := ListingFrom(t, pb, from + 1);
      slots := if IsChild(t, pb, from) then [from] + rest else rest;
      if IsChild(t, pb, from) { AscendingCons(from, rest); }
    }
  }

  lemma ListingUnfolds(t: Table, pb: int, from: nat)
    requires from <= |t|
    ensures from == |t| ==> Listing(t, pb, from) == []
    ensures from < |t| && IsChild(t, pb, from) ==> Listing(t, pb, from) == [NameOf(t[from].fname)] + Listing(t, pb, from + 1)
    ensures from < |t| && !IsChild(t, pb, from) ==> Listing(t, pb, from) == Listing(t, pb, from + 1)
    ensures from < |t| && IsChild(t, pb, from) ==> Live(t, from)
  {
  }

  lemma NoneAscending(t: Table, pb: int)
    ensures Ascending([]) && forall x :: x >= |t| ==> !IsChild(t, pb, x)
  {
  }

  lemma AscendingCons(first: int, rest: seq<int>)
    requires Ascending(rest) && forall x :: x in rest ==> first < x
    ensures Ascending([first] + rest)
  {
    assert forall i :: 0 <= i < |rest| ==> rest[i] in rest;
  }
}
