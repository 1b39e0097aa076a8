/** What disciplined runs keep: names unique, every node on the path it spells. */
module TreeLookup {
  import opened Osada
  import opened Words
  import opened Names
  import opened Trees
  import opened TreeSafety

  // A run is disciplined when rmdir only takes childless directories and nothing is created over an
  // existing name.

  const SLASH: byte := 47
  const COMMA: byte := 44

  predicate Nameable(name: Name) {
    name != [] && 0 !in name && SLASH !in name
  }

  ghost predicate Rooted(t: Table, s: int) {
    exists k: nat :: Hangs(t, s, k, NONE)
  }

  ghost predicate AllRooted(t: Table) {
    forall s :: Live(t, s) ==> Rooted(t, s)
  }

  ghost predicate Unique(t: Table) {
    forall s, u :: Live(t, s) && Live(t, u) && NameOf(t[s].fname) == NameOf(t[u].fname) && t[s].parent == t[u].parent ==> s == u
  }

  ghost predicate WellNamed(t: Table) {
    forall s :: Live(t, s) ==> Nameable(NameOf(t[s].fname))
  }

  ghost predicate Good(t: Table) {
    TableOk(t) && AllRooted(t) && Unique(t) && WellNamed(t)
  }

  ghost predicate Childless(t: Table, x: int) {
    forall s :: Live(t, s) ==> t[s].parent != x
  }

  // ---------- hanging below the root ----------

  lemma {:induction false} HangsBelow(t: Table, s: int, k: nat)
    requires |t| <= ROOT && Live(t, s) && Hangs(t, s, k, NONE) && t[s].parent == s
    ensures false
    decreases k
  {
    HangsBelow(t, s, k - 1);
  }

  lemma NotItsOwnParent(t: Table, s: int)
    requires |t| <= ROOT && AllRooted(t) && Live(t, s)
    ensures t[s].parent != s && (t[s].parent == ROOT || IsDirectory(t, t[s].parent))
  {
    assert Rooted(t, s);
    var k: nat :| Hangs(t, s, k, NONE);
    if t[s].parent == s { HangsBelow(t, s, k); }
  }

  lemma {:induction false} HangsAfter(t: Table, t': Table, s: int, k: nat, f: int, m: nat) returns (k': nat)
    requires |t'| == |t| <= ROOT && 0 <= f < |t| && Hangs(t, s, k, NONE)
    requires forall x :: 0 <= x < |t| && x != f ==> t'[x] == t[x]
    requires Live(t', f) && (IsDirectory(t, f) ==> IsDirectory(t', f))
    requires Hangs(t, t'[f].parent, m, f) && Hangs(t, t'[f].parent, m, NONE) && (t'[f].parent == ROOT || IsDirectory(t, t'[f].parent))
    ensures Hangs(t', s, k', NONE)
    decreases k
  {
    if s == ROOT {
      k' := 0;
    } else if s == f {
      HangsSame(t, t', t'[f].parent, m, f, NONE);
      k' := m + 1;
    } else {
      var k1 := HangsAfter(t, t', t[s].parent, k - 1, f, m);
      k' := k1 + 1;
    }
  }

  lemma {:induction false} HangsAnyway(t: Table, s: int, k: nat, f: int)
    requires Hangs(t, s, k, f)
    ensures Hangs(t, s, k, NONE)
    decreases k
  {
    if s != ROOT { HangsAnyway(t, t[s].parent, k - 1, f); }
  }

  lemma HangElsewhereKeeps(t: Table, t': Table, f: int, m: nat)
    requires |t'| == |t| <= ROOT && 0 <= f < |t| && AllRooted(t)
    requires forall x :: 0 <= x < |t| && x != f ==> t'[x] == t[x]
    requires Live(t', f) && (IsDirectory(t, f) ==> IsDirectory(t', f))
    requires Hangs(t, t'[f].parent, m, f) && (t'[f].parent == ROOT || IsDirectory(t, t'[f].parent))
    ensures AllRooted(t')
  {
    HangsAnyway(t, t'[f].parent, m, f);
    forall s | Live(t', s) ensures Rooted(t', s) {
      if s == f {
        HangsSame(t, t', t'[f].parent, m, f, NONE);
        assert Hangs(t', s, m + 1, NONE);
      } else {
        assert Rooted(t, s);
        var k: nat :| Hangs(t, s, k, NONE);
        var k' := HangsAfter(t, t', s, k, f, m);
      }
    }
  }

  lemma {:induction false} HangsWithout(t: Table, x: int, s: int, k: nat)
    requires |t| <= ROOT && 0 <= x < |t| && s != x && Hangs(t, s, k, NONE) && Childless(t, x)
    ensures Hangs(Removed(t, x), s, k, NONE)
    decreases k
  {
    if s != ROOT { HangsWithout(t, x, t[s].parent, k - 1); }
  }

  /** Removing a node leaves every other node below the root exactly when nothing hangs from it. */
  lemma RemovalKeepsRootedIff(t: Table, x: int)
    requires |t| <= ROOT && AllRooted(t) && Live(t, x)
    ensures AllRooted(Removed(t, x)) <==> Childless(t, x)
  {
    var t' := Removed(t, x);
    if Childless(t, x) {
      forall s | Live(t', s) ensures Rooted(t', s) {
        assert Rooted(t, s);
        var k: nat :| Hangs(t, s, k, NONE);
        HangsWithout(t, x, s, k);
      }
    } else {
      var s :| Live(t, s) && t[s].parent == x;
      NotItsOwnParent(t, s);
      assert Live(t', s) && !IsDirectory(t', x);
      assert !Rooted(t', s);
    }
  }

  // ---------- one node added or moved ----------

  /** No node but `f` has that name under that parent. */
  ghost predicate NoOther(t: Table, name: Name, pb: int, f: int) {
    forall u :: u != f ==> !Matches(t, u, name, pb)
  }

  /** A new or moved node keeps names unique exactly when no other node has its name under its parent. */
  lemma UniqueIff(t: Table, t': Table, f: int)
    requires |t'| == |t| && 0 <= f < |t| && Live(t', f) && Unique(t)
    requires forall x :: 0 <= x < |t| && x != f ==> t'[x] == t[x]
    ensures Unique(t') <==> NoOther(t, NameOf(t'[f].fname), t'[f].parent, f)
  {
    var name, pb := NameOf(t'[f].fname), t'[f].parent;
    if Unique(t') {
      forall u | u != f ensures !Matches(t, u, name, pb) {
        assert Matches(t, u, name, pb) ==> Live(t', u);
      }
    }
    if NoOther(t, name, pb, f) {
      forall s, u | Live(t', s) && Live(t', u) && NameOf(t'[s].fname) == NameOf(t'[u].fname) && t'[s].parent == t'[u].parent
        ensures s == u {
        if s == f || u == f {
          assert s == f || !Matches(t, s, name, pb);
          assert u == f || !Matches(t, u, name, pb);
        } else {
          assert Live(t, s) && Live(t, u);
        }
      }
    }
  }

  lemma SearchMisses(t: Table, name: Name, pb: int, f: int)
    requires |t| <= ROOT && AllRooted(t)
    ensures Search(t, name, pb, f) == NONE <==> NoOther(t, name, pb, f)
  {
    var r := Search(t, name, pb, f);
    if r == NONE {
      forall u | u != f ensures !Matches(t, u, name, pb) {
        assert !Hit(t, u, name, pb, f);
        if Matches(t, u, name, pb) { NotItsOwnParent(t, u); }
      }
    } else {
      assert Hit(t, r, name, pb, f);
    }
  }

  /** Placing a node at a free slot, or moving one, by a name the search does not find. */
  lemma PlacingKeepsGood(t: Table, t': Table, f: int, m: nat, name: Name)
    requires Good(t) && TableOk(t') && |t'| == |t| && 0 <= f < |t|
    requires forall x :: 0 <= x < |t| && x != f ==> t'[x] == t[x]
    requires Live(t', f) && (IsDirectory(t, f) ==> IsDirectory(t', f))
    requires Hangs(t, t'[f].parent, m, f) && (t'[f].parent == ROOT || IsDirectory(t, t'[f].parent))
    requires NameOf(t'[f].fname) == name && Nameable(name)
    ensures Good(t') <==> Search(t, name, t'[f].parent, f) == NONE
  {
    HangElsewhereKeeps(t, t', f, m);
    UniqueIff(t, t', f);
    SearchMisses(t, name, t'[f].parent, f);
  }

  lemma RemovingKeepsGood(t: Table, x: int)
    requires Good(t) && Live(t, x)
    ensures Good(Removed(t, x)) <==> Childless(t, x)
  {
    RemovalKeepsRootedIff(t, x);
    var t' := Removed(t, x);
    assert Unique(t') by {
      forall s, u | Live(t', s) && Live(t', u) && NameOf(t'[s].fname) == NameOf(t'[u].fname) && t'[s].parent == t'[u].parent
        ensures s == u {
        assert Live(t, s) && Live(t, u);
      }
    }
  }

  // ---------- operations ----------

  /** mknod keeps the tree good exactly when the name is not taken. */
  lemma MknodGood(t: Table, names: seq<Name>, junk: seq<byte>)
    requires |junk| == FILENAME_LENGTH && Good(t)
    requires forall i :: 0 <= i < |names| ==> Nameable(names[i])
    ensures var (pb, n) := WalkDirs(t, names, ROOT, NONE);
      Good(Mknod(t, names, junk).table) <==>
        !(n + 1 == |names| && |names[n]| <= FILENAME_LENGTH && FreeFrom(t, pb, 0) != NONE) || Search(t, names[n], pb, NONE) == NONE
  {
    var (pb, n) := WalkDirs(t, names, ROOT, NONE);
    WalkHangs(t, names, ROOT, NONE, 0);
    WalkStays(t, names, ROOT, NONE);
    if n + 1 == |names| && |names[n]| <= FILENAME_LENGTH && FreeFrom(t, pb, 0) != NONE {
      var s := FreeFrom(t, pb, 0);
      HangsAvoids(t, pb, n, s);
      NameSurvives(junk, names[n]);
      PlacingKeepsGood(t, t[s := NewNode(Regular, names[n], pb, junk)], s, n, names[n]);
      DeadIgnored(t, names[n], pb, s, 0);
    }
  }

  lemma {:induction false} DeadIgnored(t: Table, name: Name, pb: int, s: int, from: nat)
    requires !Live(t, s) && from <= |t|
    ensures SearchFrom(t, name, pb, s, from) == SearchFrom(t, name, pb, NONE, from)
    decreases |t| - from
  {
    if from < |t| { DeadIgnored(t, name, pb, s, from + 1); }
  }

  /** rmdir keeps the tree good exactly when the directory, if it finds one, is childless. */
  lemma RmdirGood(t: Table, names: seq<Name>)
    requires Good(t)
    ensures var (pb, n) := WalkDirs(t, names, ROOT, NONE);
      Good(Rmdir(t, names).table) <==> n < |names| || pb == ROOT || Childless(t, pb)
  {
    var (pb, n) := WalkDirs(t, names, ROOT, NONE);
    WalkStays(t, names, ROOT, NONE);
    WalkHangs(t, names, ROOT, NONE, 0);
    if n == |names| && pb != ROOT { RemovingKeepsGood(t, pb); }
  }

  /** What the walk of write, truncate and unlink finds is a regular file. */
  lemma LocateIsRegular(t: Table, names: seq<Name>)
    requires Locate(t, names).File?
    ensures var s := Locate(t, names).slot; 0 <= s < |t| && t[s].state == Regular
  {
  }

  lemma UnlinkGood(t: Table, names: seq<Name>)
    requires Good(t)
    ensures Good(Unlink(t, names).table)
  {
    if Locate(t, names).File? {
      var s := Locate(t, names).slot;
      LocateIsRegular(t, names);
      forall u | Live(t, u) ensures t[u].parent != s { NotItsOwnParent(t, u); }
      RemovingKeepsGood(t, s);
    }
  }

  lemma SourceIsLive(t: Table, from: seq<Name>)
    requires |t| <= ROOT && from != [] && Source(t, from) != NONE
    ensures Live(t, Source(t, from))
  {
    WalkStays(t, from, ROOT, NONE);
    WalkHangs(t, from, ROOT, NONE, 0);
  }

  /** rename always does. */
  lemma RenameGood(t: Table, from: seq<Name>, to: seq<Name>)
    requires Good(t) && from != [] && forall i :: 0 <= i < |to| ==> Nameable(to[i])
    ensures Good(Rename(t, from, to).table)
  {
    var f := Source(t, from);
    WalkStays(t, from, ROOT, NONE);
    if f != NONE {
      SourceIsLive(t, from);
      var (pb, n) := WalkDirs(t, to, ROOT, f);
      WalkStays(t, to, ROOT, f);
      WalkHangs(t, to, ROOT, f, 0);
      if n + 1 == |to| && Search(t, to[n], pb, f) == NONE && |to[n]| <= FILENAME_LENGTH {
        NameSurvives(t[f].fname, to[n]);
        PlacingKeepsGood(t, Moved(t, f, pb, to[n]), f, n, to[n]);
      }
    }
  }

  // ---------- paths ----------

  /** The names on the way from the root to `s`. */
  ghost function Path(t: Table, s: int, k: nat): (r: seq<Name>)
    requires |t| <= ROOT && Hangs(t, s, k, NONE)
    ensures |r| <= k
    decreases k
  {
    if s == ROOT then [] else Path(t, t[s].parent, k - 1) + [NameOf(t[s].fname)]
  }

  /** With unique names, a live node is the first hit for its own name. */
  lemma FindsItself(t: Table, s: int)
    requires Good(t) && Live(t, s)
    ensures Search(t, NameOf(t[s].fname), t[s].parent, NONE) == s
  {
    NotItsOwnParent(t, s);
    assert Hit(t, s, NameOf(t[s].fname), t[s].parent, NONE);
  }

  lemma {:induction false} ResolveSnoc(t: Table, names: seq<Name>, name: Name, pb: int)
    requires Resolve(t, names, pb) != NONE
    ensures Resolve(t, names + [name], pb) == Search(t, name, Resolve(t, names, pb), NONE)
    decreases |names|
  {
    if names != [] {
      assert (names + [name])[1..] == names[1..] + [name];
      ResolveSnoc(t, names[1..], name, Search(t, names[0], pb, NONE));
    } else {
      assert (names + [name])[1..] == [];
    }
  }

  /** Every live node is found under the path it spells. */
  lemma {:induction false} PathResolves(t: Table, s: int, k: nat)
    requires Good(t) && Hangs(t, s, k, NONE)
    ensures Resolve(t, Path(t, s, k), ROOT) == s
    decreases k
  {
    if s != ROOT {
      PathResolves(t, t[s].parent, k - 1);
      NotItsOwnParent(t, s);
      ResolveSnoc(t, Path(t, t[s].parent, k - 1), NameOf(t[s].fname), ROOT);
      FindsItself(t, s);
    }
  }

  lemma {:induction false} WalkSnoc(t: Table, names: seq<Name>, name: Name, pb: int)
    requires WalkDirs(t, names, pb, NONE).1 == |names|
    ensures var q := WalkDirs(t, names, pb, NONE).0;
      var d := SearchDir(t, name, q, NONE);
      WalkDirs(t, names + [name], pb, NONE) == if d == NONE then (q, |names|) else (d, |names| + 1)
    decreases |names|
  {
    if names != [] {
      assert (names + [name])[1..] == names[1..] + [name];
      WalkSnoc(t, names[1..], name, SearchDir(t, names[0], pb, NONE));
    } else {
      assert (names + [name])[1..] == [];
    }
  }

  /** The directory walks end at the directory whose path they follow. */
  lemma {:induction false} WalkFollowsPath(t: Table, s: int, k: nat)
    requires Good(t) && Hangs(t, s, k, NONE) && (s == ROOT || IsDirectory(t, s))
    ensures WalkDirs(t, Path(t, s, k), ROOT, NONE) == (s, |Path(t, s, k)|)
    decreases k
  {
    if s != ROOT {
      NotItsOwnParent(t, s);
      WalkFollowsPath(t, t[s].parent, k - 1);
      WalkSnoc(t, Path(t, t[s].parent, k - 1), NameOf(t[s].fname), ROOT);
      FindsItself(t, s);
    }
  }

  /** write, truncate and unlink find a regular file under its path. */
  lemma LocateFollowsPath(t: Table, s: int, k: nat)
    requires Good(t) && Hangs(t, s, k, NONE) && s != ROOT && t[s].state == Regular
    ensures Locate(t, Path(t, s, k)) == File(s)
  {
    NotItsOwnParent(t, s);
    WalkFollowsPath(t, t[s].parent, k - 1);
    WalkSnoc(t, Path(t, t[s].parent, k - 1), NameOf(t[s].fname), ROOT);
    FindsItself(t, s);
  }

  lemma {:induction false} PathNames(t: Table, s: int, k: nat)
    requires Good(t) && Hangs(t, s, k, NONE)
    ensures Separable(SLASH, Path(t, s, k))
    decreases k
  {
    if s != ROOT { PathNames(t, t[s].parent, k - 1); }
  }

  /** As clients send it: the path spelled out with slashes, split by the server, resolves to the node. */
  lemma SpelledPathResolves(t: Table, s: int, k: nat)
    requires Good(t) && Hangs(t, s, k, NONE)
    ensures Resolve(t, Tokens(SLASH, Spelled(SLASH, Path(t, s, k))), ROOT) == s
  {
    PathNames(t, s, k);
    SplitSpelled(SLASH, Path(t, s, k));
    PathResolves(t, s, k);
  }

  // ---------- listings ----------

  /** The names of the nodes under `pb`, in slot order. */
  function Listing(t: Table, pb: int, from: nat): seq<Name>
    requires from <= |t|
    decreases |t| - from
  {
    if from == |t| then []
    else (if from != pb && Live(t, from) && t[from].parent == pb then [NameOf(t[from].fname)] else []) + Listing(t, pb, from + 1)
  }

  lemma {:induction false} TokensAreClean(sep: byte, s: seq<byte>)
    ensures Separable(sep, Tokens(sep, s))
    decreases |s|
  {
    if s == [] {
    } else if s[0] == sep {
      TokensAreClean(sep, s[1..]);
    } else {
      TokensAreClean(sep, s[Span(sep, s)..]);
    }
  }

  /** The client gets back the listed names, in slot order, exactly when none of them is empty or holds a comma. */
  lemma ListingArrives(t: Table, pb: int)
    ensures Tokens(COMMA, JoinEach(COMMA, Listing(t, pb, 0))) == Listing(t, pb, 0) <==> Separable(COMMA, Listing(t, pb, 0))
  {
    var names := Listing(t, pb, 0);
    TokensAreClean(COMMA, JoinEach(COMMA, names));
    if Separable(COMMA, names) { SplitJoined(COMMA, names); }
  }

  // ---------- disciplined runs ----------

  /** mkdir creates nothing over an existing name. */
  ghost predicate MkdirFresh(t: Table, names: seq<Name>, pb: int, junk: seq<byte>)
    requires |junk| == FILENAME_LENGTH && |t| <= ROOT && (pb == FULL || 0 <= pb < |t| || pb == ROOT)
    decreases |names|
  {
    names == [] || pb == FULL ||
    var d := SearchDir(t, names[0], pb, pb);
    if d != NONE then MkdirFresh(t, names[1..], d, junk)
    else
      |names[0]| > FILENAME_LENGTH || FreeFrom(t, pb, 0) == NONE ||
      (Search(t, names[0], pb, NONE) == NONE &&
       var s := FreeFrom(t, pb, 0);
       MkdirFresh(t[s := NewNode(Directory, names[0], pb, junk)], names[1..], s, junk))
  }

  ghost predicate Disciplined(t: Table, op: Op)
    requires TableOk(t)
  {
    Possible(op) &&
    match op
    case MkdirOp(names, junk) => (forall i :: 0 <= i < |names| ==> Nameable(names[i])) && MkdirFresh(t, names, ROOT, junk)
    case MknodOp(names, junk) =>
      && (forall i :: 0 <= i < |names| ==> Nameable(names[i]))
      && var (pb, n) := WalkDirs(t, names, ROOT, NONE);
         (n + 1 == |names| ==> Search(t, names[n], pb, NONE) == NONE)
    case RmdirOp(names) =>
      var (pb, n) := WalkDirs(t, names, ROOT, NONE);
      n < |names| || pb == ROOT || Childless(t, pb)
    case UnlinkOp(_) => true
    case RenameOp(_, to) => forall i :: 0 <= i < |to| ==> Nameable(to[i])
  }

  lemma {:induction false} FullMakesNothing(t: Table, names: seq<Name>, junk: seq<byte>)
    requires |junk| == FILENAME_LENGTH && |t| <= ROOT
    ensures MkdirFrom(t, names, FULL, junk).table == t
  {
    if names != [] && SearchDir(t, names[0], FULL, FULL) != NONE {
      assert false;
    }
  }

  lemma {:induction false} OwnerIgnored(t: Table, name: Name, pb: int, from: nat)
    requires from <= |t|
    ensures SearchFrom(t, name, pb, pb, from) == SearchFrom(t, name, pb, NONE, from)
    decreases |t| - from
  {
    if from < |t| { OwnerIgnored(t, name, pb, from + 1); }
  }

  /** mkdir leaves every live node as it was. */
  lemma {:induction false} MkdirSpares(t: Table, names: seq<Name>, pb: int, junk: seq<byte>, x: int)
    requires |junk| == FILENAME_LENGTH && |t| <= ROOT && (pb == FULL || 0 <= pb < |t| || pb == ROOT) && Live(t, x)
    ensures MkdirFrom(t, names, pb, junk).table[x] == t[x]
    decreases |names|
  {
    if names != [] {
      var d := SearchDir(t, names[0], pb, pb);
      if d != NONE {
        MkdirSpares(t, names[1..], d, junk, x);
      } else if |names[0]| <= FILENAME_LENGTH && pb != FULL {
        var s := FreeFrom(t, pb, 0);
        if s == NONE {
          MkdirSpares(t, names[1..], FULL, junk, x);
        } else {
          MkdirSpares(t[s := NewNode(Directory, names[0], pb, junk)], names[1..], s, junk, x);
        }
      }
    }
  }

  lemma MkdirOneGood(t: Table, name: Name, pb: int, junk: seq<byte>, k: nat)
    requires |junk| == FILENAME_LENGTH && Good(t) && Nameable(name) && |name| <= FILENAME_LENGTH
    requires Hangs(t, pb, k, NONE) && (pb == ROOT || IsDirectory(t, pb))
    requires FreeFrom(t, pb, 0) != NONE && Search(t, name, pb, NONE) == NONE
    ensures var s := FreeFrom(t, pb, 0);
      var t' := t[s := NewNode(Directory, name, pb, junk)];
      Good(t') && Hangs(t', s, k + 1, NONE)
  {
    var s := FreeFrom(t, pb, 0);
    var t' := t[s := NewNode(Directory, name, pb, junk)];
    HangsAvoids(t, pb, k, s);
    HangsSame(t, t', pb, k, s, NONE);
    NameSurvives(junk, name);
    DeadIgnored(t, name, pb, s, 0);
    PlacingKeepsGood(t, t', s, k, name);
  }

  lemma {:induction false} MkdirFreshGood(t: Table, names: seq<Name>, pb: int, junk: seq<byte>, k: nat)
    requires |junk| == FILENAME_LENGTH && Good(t)
    requires Hangs(t, pb, k, NONE) && (pb == ROOT || IsDirectory(t, pb))
    requires (forall i :: 0 <= i < |names| ==> Nameable(names[i])) && MkdirFresh(t, names, pb, junk)
    ensures Good(MkdirFrom(t, names, pb, junk).table)
    decreases |names|
  {
    if names != [] {
      var d := SearchDir(t, names[0], pb, pb);
      if d != NONE {
        MkdirFreshGood(t, names[1..], d, junk, k + 1);
      } else if |names[0]| <= FILENAME_LENGTH {
        var s := FreeFrom(t, pb, 0);
        if s == NONE {
          FullMakesNothing(t, names[1..], junk);
        } else {
          MkdirOneGood(t, names[0], pb, junk, k);
          MkdirFreshGood(t[s := NewNode(Directory, names[0], pb, junk)], names[1..], s, junk, k + 1);
        }
      }
    }
  }

  /** Two nodes of one name under one parent. */
  lemma MkdirTwice(t: Table, names: seq<Name>, pb: int, junk: seq<byte>, s: nat, u: int)
    requires |junk| == FILENAME_LENGTH && TableOk(t) && names != [] && (0 <= pb < |t| || pb == ROOT)
    requires |names[0]| <= FILENAME_LENGTH && Nameable(names[0])
    requires s < |t| && t[s].state == Deleted && Matches(t, u, names[0], pb)
    ensures !Good(MkdirFrom(t[s := NewNode(Directory, names[0], pb, junk)], names[1..], s, junk).table)
  {
    hide AllRooted, WellNamed, MkdirFrom;
    var t' := t[s := NewNode(Directory, names[0], pb, junk)];
    NameSurvives(junk, names[0]);
    MkdirSpares(t', names[1..], s, junk, s);
    MkdirSpares(t', names[1..], s, junk, u);
    var r := MkdirFrom(t', names[1..], s, junk).table;
    assert Live(r, s) && Live(r, u) && s != u;
  }

  lemma {:induction false} MkdirSpoils(t: Table, names: seq<Name>, pb: int, junk: seq<byte>, k: nat)
    requires |junk| == FILENAME_LENGTH && Good(t)
    requires Hangs(t, pb, k, NONE) && (pb == ROOT || IsDirectory(t, pb))
    requires (forall i :: 0 <= i < |names| ==> Nameable(names[i])) && !MkdirFresh(t, names, pb, junk)
    ensures !Good(MkdirFrom(t, names, pb, junk).table)
    decreases |names|
  {
    var d := SearchDir(t, names[0], pb, pb);
    if d != NONE {
      MkdirSpoils(t, names[1..], d, junk, k + 1);
    } else {
      var s := FreeFrom(t, pb, 0);
      var u := Search(t, names[0], pb, NONE);
      if u != NONE {
        MkdirTwice(t, names, pb, junk, s, u);
      } else {
        MkdirOneGood(t, names[0], pb, junk, k);
        MkdirSpoils(t[s := NewNode(Directory, names[0], pb, junk)], names[1..], s, junk, k + 1);
      }
    }
  }

  /** mkdir keeps the tree good exactly when it creates nothing over an existing name. */
  lemma MkdirGood(t: Table, names: seq<Name>, pb: int, junk: seq<byte>, k: nat)
    requires |junk| == FILENAME_LENGTH && Good(t)
    requires Hangs(t, pb, k, NONE) && (pb == ROOT || IsDirectory(t, pb))
    requires forall i :: 0 <= i < |names| ==> Nameable(names[i])
    ensures Good(MkdirFrom(t, names, pb, junk).table) <==> MkdirFresh(t, names, pb, junk)
  {
    if MkdirFresh(t, names, pb, junk) { MkdirFreshGood(t, names, pb, junk, k); } else { MkdirSpoils(t, names, pb, junk, k); }
  }

  /** Whether it does so shows before the request: only the first name that is no directory can be taken,
      and then by a file. */
  lemma {:induction false} MkdirFreshIff(t: Table, names: seq<Name>, pb: int, junk: seq<byte>, k: nat)
    requires |junk| == FILENAME_LENGTH && Good(t)
    requires Hangs(t, pb, k, NONE) && (pb == ROOT || IsDirectory(t, pb))
    requires forall i :: 0 <= i < |names| ==> Nameable(names[i])
    ensures var (d, n) := WalkDirs(t, names, pb, NONE);
      MkdirFresh(t, names, pb, junk) <==>
        !(n < |names| && |names[n]| <= FILENAME_LENGTH && FreeFrom(t, d, 0) != NONE) || Search(t, names[n], d, NONE) == NONE
    decreases |names|
  {
    hide NameOf, NewNode, Unique, WellNamed;
    if names != [] {
      OwnerIgnored(t, names[0], pb, 0);
      var d := SearchDir(t, names[0], pb, pb);
      if d != NONE {
        MkdirFreshIff(t, names[1..], d, junk, k + 1);
      } else if |names[0]| <= FILENAME_LENGTH && FreeFrom(t, pb, 0) != NONE && Search(t, names[0], pb, NONE) == NONE {
        FreshAfter(t, names, pb, junk);
      }
    }
  }

  ghost predicate ParentsLive(t: Table) {
    forall x :: Live(t, x) ==> t[x].parent == ROOT || Live(t, t[x].parent)
  }

  lemma RootedParents(t: Table)
    requires |t| <= ROOT && AllRooted(t)
    ensures ParentsLive(t)
  {
    forall x | Live(t, x) ensures t[x].parent == ROOT || Live(t, t[x].parent) {
      assert Rooted(t, x);
    }
  }

  lemma TakenIsChildless(t: Table, f: nat, node: Node)
    requires ParentsLive(t) && f < |t| <= ROOT && t[f].state == Deleted
    requires node.state == Directory && (node.parent == ROOT || Live(t, node.parent))
    ensures ParentsLive(t[f := node]) && Childless(t[f := node], f)
  {
    var t' := t[f := node];
    forall x | Live(t', x) ensures t'[x].parent != f && (t'[x].parent == ROOT || Live(t', t'[x].parent)) {
      assert x != f ==> Live(t, x);
    }
  }

  /** Below a directory without children there is nothing to create over. */
  lemma {:induction false} FreshBelow(t: Table, s: nat, names: seq<Name>, junk: seq<byte>)
    requires |junk| == FILENAME_LENGTH && |t| <= ROOT && ParentsLive(t) && IsDirectory(t, s) && Childless(t, s)
    ensures MkdirFresh(t, names, s, junk)
    decreases |names|
  {
    hide ParentsLive, NameOf, FreeFrom, NewNode;
    if names != [] {
      NothingUnder(t, s, names[0], s);
      NothingUnder(t, s, names[0], NONE);
      var f := FreeFrom(t, s, 0);
      if |names[0]| <= FILENAME_LENGTH && f != NONE {
        var node := NewNode(Directory, names[0], s, junk);
        NewDirectory(names[0], s, junk);
        TakenIsChildless(t, f, node);
        FreshBelow(t[f := node], f, names[1..], junk);
      }
    }
  }

  lemma FreshAfter(t: Table, names: seq<Name>, pb: int, junk: seq<byte>)
    requires |junk| == FILENAME_LENGTH && Good(t) && (pb == ROOT || IsDirectory(t, pb))
    requires names != [] && |names[0]| <= FILENAME_LENGTH && FreeFrom(t, pb, 0) != NONE
    ensures var s := FreeFrom(t, pb, 0); MkdirFresh(t[s := NewNode(Directory, names[0], pb, junk)], names[1..], s, junk)
  {
    hide MkdirFresh;
    var s := FreeFrom(t, pb, 0);
    RootedParents(t);
    NewDirectory(names[0], pb, junk);
    TakenIsChildless(t, s, NewNode(Directory, names[0], pb, junk));
    FreshBelow(t[s := NewNode(Directory, names[0], pb, junk)], s, names[1..], junk);
  }

  lemma NewDirectory(name: Name, pb: int, junk: seq<byte>)
    requires |junk| == FILENAME_LENGTH && |name| <= FILENAME_LENGTH && 0 <= pb <= ROOT
    ensures var node := NewNode(Directory, name, pb, junk);
      node.state == Directory && node.parent == pb && node.fileSize == 0 && node.firstBlock == 0
  {
  }

  lemma NothingUnder(t: Table, s: int, name: Name, ignore: int)
    requires Childless(t, s)
    ensures Search(t, name, s, ignore) == NONE
  {
    var u := Search(t, name, s, ignore);
    assert u != NONE ==> Hit(t, u, name, s, ignore);
  }

  lemma DisciplinedGood(t: Table, op: Op)
    requires Good(t) && Disciplined(t, op)
    ensures Good(Apply(t, op).table)
  {
    match op {
      case MkdirOp(names, junk) => MkdirGood(t, names, ROOT, junk, 0);
      case MknodOp(names, junk) => MknodGood(t, names, junk);
      case RmdirOp(names) => RmdirGood(t, names);
      case UnlinkOp(names) => UnlinkGood(t, names);
      case RenameOp(from, to) => RenameGood(t, from, to);
    }
  }

  ghost predicate DisciplinedRun(t: Table, ops: seq<Op>)
    requires TableOk(t)
    decreases |ops|
  {
    ops == [] || (Disciplined(t, ops[0]) && (FieldsKept(t, ops[0]); DisciplinedRun(Apply(t, ops[0]).table, ops[1..])))
  }

  /** Disciplined runs keep the tree good, so every live node is found under the path it spells. */
  lemma {:induction false} DisciplinedRunsStayGood(t: Table, ops: seq<Op>)
    requires Good(t) && DisciplinedRun(t, ops)
    ensures (forall i :: 0 <= i < |ops| ==> Possible(ops[i])) && Good(Run(t, ops))
    decreases |ops|
  {
    if ops != [] {
      FieldsKept(t, ops[0]);
      DisciplinedGood(t, ops[0]);
      DisciplinedRunsStayGood(Apply(t, ops[0]).table, ops[1..]);
      assert forall i :: 0 < i < |ops| ==> ops[i] == ops[1..][i - 1];
    }
  }
}
