/** Which node a path names, said without searching, and what the searches of the server find. */
module Paths {
  import opened Osada
  import opened Names
  import opened Trees
  import opened TreeSafety
  import opened TreeLookup

  /** `names` are the names on the way from the root down to `s`. */
  predicate Spells(t: Table, s: int, names: seq<Name>)
    decreases |names|
  {
    if names == [] then s == ROOT
    else
      var n := |names| - 1;
      && Live(t, s) && NameOf(t[s].fname) == names[n]
      && (t[s].parent == ROOT || IsDirectory(t, t[s].parent)) && Spells(t, t[s].parent, names[..n])
  }

  /** The root or a directory. */
  predicate Holder(t: Table, d: int) {
    d == ROOT || IsDirectory(t, d)
  }

  ghost predicate IsTaken(t: Table, names: seq<Name>) {
    exists s :: Spells(t, s, names)
  }

  ghost predicate IsDirPath(t: Table, names: seq<Name>) {
    exists d :: Spells(t, d, names) && Holder(t, d)
  }

  /** Names are unique and no node is its own parent. */
  ghost predicate Clean(t: Table) {
    |t| <= ROOT && Unique(t) && forall x :: Live(t, x) ==> t[x].parent != x
  }

  lemma GoodIsClean(t: Table)
    requires Good(t)
    ensures Clean(t) && forall x :: Live(t, x) ==> t[x].parent == ROOT || IsDirectory(t, t[x].parent)
  {
    forall x | Live(t, x) ensures t[x].parent != x && (t[x].parent == ROOT || IsDirectory(t, t[x].parent)) {
      NotItsOwnParent(t, x);
    }
  }

  // ---------- paths and nodes ----------

  /** The same relation, from the climb to the root. */
  lemma {:induction false} SpellsPath(t: Table, s: int, names: seq<Name>)
    requires |t| <= ROOT && Spells(t, s, names)
    ensures Hangs(t, s, |names|, NONE) && Path(t, s, |names|) == names
    decreases |names|
  {
    if names != [] {
      var n := |names| - 1;
      SpellsPath(t, t[s].parent, names[..n]);
      assert names == names[..n] + [names[n]];
    }
  }

  lemma {:induction false} PathSpells(t: Table, s: int, k: nat)
    requires |t| <= ROOT && Hangs(t, s, k, NONE)
    ensures Spells(t, s, Path(t, s, k))
    decreases k
  {
    if s != ROOT {
      var p := Path(t, t[s].parent, k - 1);
      PathSpells(t, t[s].parent, k - 1);
      assert (p + [NameOf(t[s].fname)])[..|p|] == p;
    }
  }

  /** A node has one path. */
  lemma {:induction false} OnePath(t: Table, s: int, a: seq<Name>, b: seq<Name>)
    requires |t| <= ROOT && Spells(t, s, a) && Spells(t, s, b)
    ensures a == b
    decreases |a|
  {
    if a != [] && b != [] {
      var n, m := |a| - 1, |b| - 1;
      OnePath(t, t[s].parent, a[..n], b[..m]);
      assert a == a[..n] + [a[n]] && b == b[..m] + [b[m]];
    }
  }

  /** A path has one node. */
  lemma {:induction false} OneNode(t: Table, s: int, u: int, names: seq<Name>)
    requires Unique(t) && Spells(t, s, names) && Spells(t, u, names)
    ensures s == u
    decreases |names|
  {
    if names != [] { OneNode(t, t[s].parent, t[u].parent, names[..|names| - 1]); }
  }

  /** The nodes on the way to a directory are directories. */
  lemma {:induction false} WayDown(t: Table, d: int, names: seq<Name>, m: nat) returns (x: int)
    requires Spells(t, d, names) && Holder(t, d) && m <= |names|
    ensures Spells(t, x, names[..m]) && Holder(t, x)
    decreases |names|
  {
    if m == |names| {
      x := d;
      assert names[..m] == names;
    } else {
      x := WayDown(t, t[d].parent, names[..|names| - 1], m);
      assert names[..|names| - 1][..m] == names[..m];
    }
  }

  lemma SpellsSnoc(t: Table, s: int, names: seq<Name>, name: Name)
    ensures Spells(t, s, names + [name]) <==>
      Live(t, s) && NameOf(t[s].fname) == name && Holder(t, t[s].parent) && Spells(t, t[s].parent, names)
  {
    assert (names + [name])[..|names|] == names;
  }

  // ---------- what searches find ----------

  lemma SearchFinds(t: Table, name: Name, pb: int, u: int)
    requires Clean(t) && Matches(t, u, name, pb)
    ensures Search(t, name, pb, NONE) == u
  {
    hide NameOf;
    assert Hit(t, u, name, pb, NONE);
  }

  lemma SearchMatches(t: Table, name: Name, pb: int)
    ensures Search(t, name, pb, NONE) != NONE ==> Matches(t, Search(t, name, pb, NONE), name, pb)
  {
  }

  lemma WalkUnfolds(t: Table, names: seq<Name>, pb: int)
    ensures names == [] || SearchDir(t, names[0], pb, NONE) == NONE ==> WalkDirs(t, names, pb, NONE) == (pb, 0)
    ensures names != [] && SearchDir(t, names[0], pb, NONE) != NONE ==>
      var r := WalkDirs(t, names[1..], SearchDir(t, names[0], pb, NONE), NONE); WalkDirs(t, names, pb, NONE) == (r.0, r.1 + 1)
  {
  }

  lemma SearchDirMatches(t: Table, name: Name, pb: int)
    ensures var d := SearchDir(t, name, pb, NONE); d != NONE ==> Matches(t, d, name, pb) && IsDirectory(t, d)
  {
  }

  /** A walk follows the names it uses. */
  lemma {:induction false} WalkSpells(t: Table, names: seq<Name>, pb: int, before: seq<Name>)
    requires Spells(t, pb, before) && Holder(t, pb)
    ensures var (d, n) := WalkDirs(t, names, pb, NONE);
      Spells(t, d, before + names[..n]) && Holder(t, d)
    decreases |names|
  {
    hide SearchDir, NameOf, Spells, WalkDirs;
    WalkUnfolds(t, names, pb);
    if names != [] && SearchDir(t, names[0], pb, NONE) != NONE {
      var d := SearchDir(t, names[0], pb, NONE);
      SearchDirMatches(t, names[0], pb);
      SpellsSnoc(t, d, before, names[0]);
      WalkSpells(t, names[1..], d, before + [names[0]]);
      var n := WalkDirs(t, names[1..], d, NONE).1;
      assert before + [names[0]] + names[1..][..n] == before + names[..n + 1];
    } else {
      assert before + names[..0] == before;
    }
  }

  lemma WalkFromRoot(t: Table, names: seq<Name>)
    ensures var (d, n) := WalkDirs(t, names, ROOT, NONE); Spells(t, d, names[..n]) && Holder(t, d)
  {
    WalkSpells(t, names, ROOT, []);
    var n := WalkDirs(t, names, ROOT, NONE).1;
    assert [] + names[..n] == names[..n];
  }

  /** It stops where no directory has the path that comes next. */
  lemma WalkStops(t: Table, names: seq<Name>, x: int)
    requires Clean(t) && WalkDirs(t, names, ROOT, NONE).1 < |names| && IsDirectory(t, x)
    ensures !Spells(t, x, names[..WalkDirs(t, names, ROOT, NONE).1 + 1])
  {
    hide Search, NameOf, WalkDirs;
    var (d, n) := WalkDirs(t, names, ROOT, NONE);
    var next := names[..n + 1];
    if Spells(t, x, next) {
      assert next[..n] == names[..n];
      WalkFromRoot(t, names);
      OneNode(t, t[x].parent, d, names[..n]);
      SearchFinds(t, names[n], d, x);
      assert false;
    }
  }

  /** A walk uses all names exactly when they are the path of a directory. */
  lemma WalkIff(t: Table, names: seq<Name>)
    requires Clean(t)
    ensures var (d, n) := WalkDirs(t, names, ROOT, NONE); n == |names| <==> IsDirPath(t, names)
    ensures forall d :: Spells(t, d, names) && Holder(t, d) ==> WalkDirs(t, names, ROOT, NONE) == (d, |names|)
  {
    hide Spells, Unique, WalkDirs;
    var (e, n) := WalkDirs(t, names, ROOT, NONE);
    WalkFromRoot(t, names);
    if n == |names| { assert names[..n] == names; }
    forall d | Spells(t, d, names) && Holder(t, d) ensures e == d && n == |names| {
      if n < |names| {
        var x := WayDown(t, d, names, n + 1);
        NotRoot(t, x, names[..n + 1]);
        WalkStops(t, names, x);
        assert false;
      }
      OneNode(t, d, e, names);
    }
  }

  lemma NotRoot(t: Table, x: int, names: seq<Name>)
    requires |t| <= ROOT && Spells(t, x, names) && names != []
    ensures x != ROOT && Live(t, x)
  {
  }

  /** The walk to the directory a path ends in, and what it finds there. */
  lemma LastStep(t: Table, names: seq<Name>)
    requires Clean(t) && names != [] && !IsDirPath(t, names)
    ensures var (d, n) := WalkDirs(t, names, ROOT, NONE);
      var last := |names| - 1;
      && (n == last <==> IsDirPath(t, names[..last]))
      && (n == last ==> Spells(t, d, names[..last]) && Holder(t, d))
      && (n == last ==> forall s :: Spells(t, s, names) <==> s == Search(t, names[last], d, NONE) != NONE)
  {
    hide WalkDirs, Unique, Search;
    var (d, n) := WalkDirs(t, names, ROOT, NONE);
    var last := |names| - 1;
    WalkIff(t, names);
    WalkFromRoot(t, names);
    if IsDirPath(t, names[..last]) && n < last {
      var e :| Spells(t, e, names[..last]) && Holder(t, e);
      var x := WayDown(t, e, names[..last], n + 1);
      assert names[..last][..n + 1] == names[..n + 1];
      NotRoot(t, x, names[..n + 1]);
      WalkStops(t, names, x);
      assert false;
    }
    if n == last {
      forall s ensures Spells(t, s, names) <==> s == Search(t, names[last], d, NONE) != NONE {
        FoundThere(t, names, d, s);
      }
    }
  }

  lemma FoundThere(t: Table, names: seq<Name>, d: int, s: int)
    requires Clean(t) && names != [] && Spells(t, d, names[..|names| - 1]) && Holder(t, d)
    ensures Spells(t, s, names) <==> s == Search(t, names[|names| - 1], d, NONE) != NONE
  {
    hide Search, NameOf;
    var name := names[|names| - 1];
    SearchMatches(t, name, d);
    if Spells(t, s, names) {
      OneNode(t, t[s].parent, d, names[..|names| - 1]);
      SearchFinds(t, name, d, s);
      assert s >= 0;
    }
  }

  // ---------- the lookups of the server ----------

  /** What write, truncate and unlink find has the path asked for, in any table. */
  lemma LocateSpells(t: Table, names: seq<Name>)
    requires |t| <= ROOT && Locate(t, names).File?
    ensures var s := Locate(t, names).slot; Spells(t, s, names) && Live(t, s) && t[s].state == Regular
  {
    hide Search, NameOf, WalkDirs;
    WalkFromRoot(t, names);
    LocateIsRegular(t, names);
    var (d, n) := WalkDirs(t, names, ROOT, NONE);
    SearchMatches(t, names[n], d);
    SpellsSnoc(t, Locate(t, names).slot, names[..n], names[n]);
    assert names[..n] + [names[n]] == names;
  }

  /** write, truncate and unlink find a file exactly under its own path, directories exactly under theirs,
      and nothing under any other. */
  lemma LocateIff(t: Table, names: seq<Name>)
    requires Clean(t)
    ensures forall s :: Locate(t, names) == File(s) <==> Spells(t, s, names) && !Holder(t, s)
    ensures forall d :: Locate(t, names) == OnlyDirectories(d) <==> Spells(t, d, names) && Holder(t, d)
    ensures Locate(t, names) == NotFound <==> !IsTaken(t, names)
  {
    hide WalkDirs, Search, Unique, Spells;
    var (d, n) := WalkDirs(t, names, ROOT, NONE);
    WalkIff(t, names);
    if n == |names| {
      WalkFromRoot(t, names);
      assert names[..n] == names;
      forall s | Spells(t, s, names) ensures s == d { OneNode(t, s, d, names); }
    } else {
      LastStep(t, names);
      var last := |names| - 1;
      if n == last {
        var u := Search(t, names[last], d, NONE);
        assert forall s :: Spells(t, s, names) <==> s == u != NONE;
        if u != NONE { assert !Holder(t, u) by { assert Spells(t, u, names); } }
      } else {
        forall s ensures !Spells(t, s, names) { NoParent(t, names, s); }
      }
    }
  }

  lemma NoParent(t: Table, names: seq<Name>, s: int)
    requires names != [] && !IsDirPath(t, names[..|names| - 1])
    ensures !Spells(t, s, names)
  {
  }

  /** The walk of getattr and read finds a node exactly under its own path. */
  lemma {:induction false} ResolveIff(t: Table, names: seq<Name>, s: int)
    requires Good(t) && s != NONE
    ensures Resolve(t, names, ROOT) == s <==> Spells(t, s, names)
    decreases |names|
  {
    GoodIsClean(t);
    ResolveSpells(t, names, ROOT, []);
    assert [] + names == names;
    if Spells(t, s, names) {
      SpellsPath(t, s, names);
      PathResolves(t, s, |names|);
    }
  }

  lemma {:induction false} ResolveSpells(t: Table, names: seq<Name>, pb: int, before: seq<Name>)
    requires Clean(t) && (forall x :: Live(t, x) ==> Holder(t, t[x].parent)) && Spells(t, pb, before)
    ensures Resolve(t, names, pb) != NONE ==> Spells(t, Resolve(t, names, pb), before + names)
    decreases |names|
  {
    hide Search, NameOf, Unique;
    if names == [] {
      assert before + names == before;
    } else {
      var u := Search(t, names[0], pb, NONE);
      SearchMatches(t, names[0], pb);
      if u != NONE {
        SpellsSnoc(t, u, before, names[0]);
        ResolveSpells(t, names[1..], u, before + [names[0]]);
        assert before + [names[0]] + names[1..] == before + names;
      }
    }
  }

  /** A rename starts from the node that has the path, whatever it is. */
  lemma SourceIff(t: Table, from: seq<Name>, f: int)
    requires Clean(t) && from != [] && f != NONE
    ensures Source(t, from) == f <==> Spells(t, f, from)
  {
    hide WalkDirs, Search, Unique, Spells;
    var (d, n) := WalkDirs(t, from, ROOT, NONE);
    WalkIff(t, from);
    if n == |from| {
      WalkFromRoot(t, from);
      assert from[..n] == from;
      if Spells(t, f, from) { OneNode(t, f, d, from); }
    } else {
      LastStep(t, from);
      if n + 1 < |from| { NoParent(t, from, f); }
    }
  }

  lemma SourceNone(t: Table, from: seq<Name>)
    requires Clean(t) && from != []
    ensures Source(t, from) == NONE <==> !IsTaken(t, from)
  {
    hide WalkDirs, Search, Unique;
    var f := Source(t, from);
    if f != NONE { SourceIff(t, from, f); }
    if IsTaken(t, from) {
      var s :| Spells(t, s, from);
      NotRoot(t, s, from);
      SourceIff(t, from, s);
    }
  }

  // ---------- a walk that skips a node ----------

  lemma SkipIsRemoved(t: Table, f: int, name: Name, pb: int)
    requires 0 <= f < |t|
    ensures Search(t, name, pb, f) == Search(Removed(t, f), name, pb, NONE)
    ensures SearchDir(t, name, pb, f) == SearchDir(Removed(t, f), name, pb, NONE)
  {
    hide NameOf;
    SkipFrom(t, f, name, pb, 0);
  }

  lemma {:induction false} SkipFrom(t: Table, f: int, name: Name, pb: int, from: nat)
    requires 0 <= f < |t| && from <= |t|
    ensures SearchFrom(t, name, pb, f, from) == SearchFrom(Removed(t, f), name, pb, NONE, from)
    decreases |t| - from
  {
    hide NameOf;
    if from < |t| { SkipFrom(t, f, name, pb, from + 1); }
  }

  /** Skipping a node is walking in the tree without it. */
  lemma {:induction false} WalkSkips(t: Table, f: int, names: seq<Name>, pb: int)
    requires 0 <= f < |t|
    ensures WalkDirs(t, names, pb, f) == WalkDirs(Removed(t, f), names, pb, NONE)
    decreases |names|
  {
    hide SearchDir, Removed;
    if names != [] {
      SkipIsRemoved(t, f, names[0], pb);
      if SearchDir(t, names[0], pb, f) != NONE { WalkSkips(t, f, names[1..], SearchDir(t, names[0], pb, f)); }
    }
  }

  lemma RemovedClean(t: Table, f: int)
    requires Clean(t) && 0 <= f < |t|
    ensures Clean(Removed(t, f))
  {
    var u := Removed(t, f);
    forall a, b | Live(u, a) && Live(u, b) && NameOf(u[a].fname) == NameOf(u[b].fname) && u[a].parent == u[b].parent ensures a == b {
      assert Live(t, a) && Live(t, b);
    }
    forall x | Live(u, x) ensures u[x].parent != x { assert Live(t, x); }
  }
}
