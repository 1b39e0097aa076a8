/** What mkdir's answer is worth once the table may be full. */
module MkdirClaims {
  import opened Osada
  import opened Words
  import opened Names
  import opened Trees
  import opened TreeSafety
  import opened TreeLookup

  /** Free slots from `from` on. */
  function Dead(t: Table, from: nat): nat
    requires from <= |t|
    decreases |t| - from
  {
    if from == |t| then 0 else (if t[from].state == Deleted then 1 else 0) + Dead(t, from + 1)
  }

  predicate Short(names: seq<Name>) {
    forall i :: 0 <= i < |names| ==> |names[i]| <= FILENAME_LENGTH
  }

  /** How many names come before the first that is too long. */
  function FirstLong(names: seq<Name>): (n: nat)
    ensures n <= |names|
  {
    if names == [] || |names[0]| > FILENAME_LENGTH then 0 else 1 + FirstLong(names[1..])
  }

  /** The reply when these names are missing and that many slots are free: once the table is full, the next
      name is taken for made, and the one after it ends in an error. */
  function MkdirCode(missing: seq<Name>, dead: nat): Code {
    if FirstLong(missing) < |missing| && FirstLong(missing) <= dead + 1 then ENameTooLong
    else if |missing| <= dead + 1 then IsDir
    else ENoSpc
  }

  /** How many of the missing names become directories. */
  function Made(missing: seq<Name>, dead: nat): nat {
    if FirstLong(missing) <= dead then FirstLong(missing) else dead
  }

  lemma {:induction false} ShortIff(names: seq<Name>)
    ensures Short(names) <==> FirstLong(names) == |names|
  {
    if names != [] {
      ShortIff(names[1..]);
      assert names == [names[0]] + names[1..];
    }
  }

  lemma {:induction false} DeadFound(t: Table, pb: int, from: nat)
    requires from <= |t| && (Live(t, pb) || pb >= |t|)
    ensures FreeFrom(t, pb, from) == NONE <==> Dead(t, from) == 0
    decreases |t| - from
  {
    if from < |t| { DeadFound(t, pb, from + 1); }
  }

  lemma {:induction false} DeadTaken(t: Table, s: nat, node: Node, from: nat)
    requires from <= |t| && s < |t| && t[s].state == Deleted && node.state != Deleted
    ensures Dead(t[s := node], from) == Dead(t, from) - if from <= s then 1 else 0
    decreases |t| - from
  {
    if from < |t| { DeadTaken(t, s, node, from + 1); }
  }

  /** Once the table was found full, one more name to create ends in an error. */
  lemma FullAnswer(t: Table, names: seq<Name>, junk: seq<byte>)
    requires |junk| == FILENAME_LENGTH && |t| <= ROOT
    ensures MkdirFrom(t, names, FULL, junk).code ==
      if names == [] then IsDir else if |names[0]| > FILENAME_LENGTH then ENameTooLong else ENoSpc
    ensures MkdirFrom(t, names, FULL, junk).table == t
  {
    if names != [] { assert SearchDir(t, names[0], FULL, FULL) == NONE; }
  }

  // ---------- below a directory without children ----------

  predicate IsNewDirectory(node: Node) {
    node.state == Directory && node.fileSize == 0 && node.firstBlock == 0
  }

  /** Every node of `t` is still there, and every new one is an empty directory that hangs from `d` or from a slot
      that was free. */
  ghost predicate NewBelow(t: Table, t': Table, d: int) {
    && |t'| == |t|
    && (forall x :: Live(t, x) ==> t'[x] == t[x])
    && forall x :: Live(t', x) && !Live(t, x) ==> IsNewDirectory(t'[x]) && (t'[x].parent == d || (t'[x].parent < |t| && !Live(t, t'[x].parent)))
  }

  ghost predicate Bare(t: Table, s: int, names: seq<Name>, junk: seq<byte>) {
    && |junk| == FILENAME_LENGTH && |t| <= ROOT && ParentsLive(t) && IsDirectory(t, s) && Childless(t, s)
    && forall i :: 0 <= i < |names| ==> Nameable(names[i])
  }

  /** The next directory is made below a bare one, and is bare itself. */
  lemma BareNext(t: Table, s: nat, names: seq<Name>, junk: seq<byte>)
    requires Bare(t, s, names, junk) && names != [] && |names[0]| <= FILENAME_LENGTH
    ensures SearchDir(t, names[0], s, s) == NONE == SearchDir(t, names[0], s, NONE)
    ensures var f := FreeFrom(t, s, 0);
      f != NONE ==>
        var t1 := t[f := NewNode(Directory, names[0], s, junk)];
        Bare(t1, f, names[1..], junk) && Dead(t1, 0) == Dead(t, 0) - 1 && MkdirFrom(t, names, s, junk) == MkdirFrom(t1, names[1..], f, junk)
  {
    hide ParentsLive, NameOf, FreeFrom, Dead;
    NothingUnder(t, s, names[0], s);
    NothingUnder(t, s, names[0], NONE);
    var f := FreeFrom(t, s, 0);
    if f != NONE {
      var node := NewNode(Directory, names[0], s, junk);
      NewDirectory(names[0], s, junk);
      TakenIsChildless(t, f, node);
      DeadTaken(t, f, node, 0);
    }
  }

  lemma SameTable(t: Table, d: int)
    ensures NewBelow(t, t, d)
  {
  }

  lemma NewThenNew(t: Table, f: nat, node: Node, t': Table, d: int)
    requires f < |t| && t[f].state == Deleted && IsNewDirectory(node) && node.parent == d && NewBelow(t[f := node], t', f)
    ensures NewBelow(t, t', d)
  {
    var t1 := t[f := node];
    forall x | Live(t', x) && !Live(t, x) ensures t'[x].parent == d || (t'[x].parent < |t| && !Live(t, t'[x].parent)) {
      assert Live(t1, f);
      if Live(t1, x) { assert x == f; }
    }
    forall x | Live(t, x) ensures t'[x] == t[x] { assert Live(t1, x); }
  }

  lemma {:induction false} BareMakes(t: Table, names: seq<Name>, s: nat, junk: seq<byte>)
    requires Bare(t, s, names, junk)
    ensures NewBelow(t, MkdirFrom(t, names, s, junk).table, s)
    decreases |names|
  {
    hide NewBelow, Bare, FreeFrom, Dead, NewNode;
    SameTable(t, s);
    BareSlot(t, s, names, junk);
    if names != [] && |names[0]| <= FILENAME_LENGTH {
      BareNext(t, s, names, junk);
      var f := FreeFrom(t, s, 0);
      if f == NONE {
        FullAnswer(t, names[1..], junk);
      } else {
        var node := NewNode(Directory, names[0], s, junk);
        NewDirectory(names[0], s, junk);
        BareMakes(t[f := node], names[1..], f, junk);
        NewThenNew(t, f, node, MkdirFrom(t, names, s, junk).table, s);
      }
    } else if names != [] {
      LongName(t, s, names, junk);
    }
  }

  lemma BareSlot(t: Table, s: int, names: seq<Name>, junk: seq<byte>)
    requires Bare(t, s, names, junk)
    ensures 0 <= s < |t| <= ROOT && |junk| == FILENAME_LENGTH && Live(t, s)
    ensures names != [] ==> Nameable(names[0])
  {
  }

  lemma LongName(t: Table, s: nat, names: seq<Name>, junk: seq<byte>)
    requires Bare(t, s, names, junk) && names != [] && |names[0]| > FILENAME_LENGTH
    ensures MkdirFrom(t, names, s, junk) == Outcome(t, ENameTooLong) && WalkDirs(t, names, s, NONE).1 == 0
  {
    NothingUnder(t, s, names[0], s);
    NothingUnder(t, s, names[0], NONE);
  }

  /** What is found under `d` once a node by that name was put into slot `s`. */
  lemma FoundFirst(t: Table, s: nat, node: Node, t': Table, name: Name, d: int)
    requires |t| <= ROOT && s < |t| && t[s].state == Deleted && node.state != Deleted && s != d
    requires NameOf(node.fname) == name && node.parent == d && (d == ROOT || Live(t, d))
    requires NewBelow(t[s := node], t', s)
    ensures var u := Search(t, name, d, NONE); Search(t', name, d, NONE) == if 0 <= u < s then u else s
  {
    hide NameOf;
    var t1 := t[s := node];
    assert Live(t1, s) && t'[s] == node;
    assert Hit(t', s, name, d, NONE);
    forall x | x != s ensures Hit(t', x, name, d, NONE) <==> Hit(t, x, name, d, NONE) {
      if Live(t, x) { assert Live(t1, x) && t'[x] == t[x]; }
      if Live(t', x) && !Live(t, x) { assert !Live(t1, x); }
    }
    var u, u' := Search(t, name, d, NONE), Search(t', name, d, NONE);
    assert u' != NONE && u' <= s;
  }

  /** With `names` to create below a bare directory: the reply, how many become directories, and that the
      path leads that far. */
  ghost predicate Answered(t: Table, names: seq<Name>, s: int, junk: seq<byte>)
    requires |junk| == FILENAME_LENGTH && |t| <= ROOT && (0 <= s < |t| || s == ROOT)
  {
    var r := MkdirFrom(t, names, s, junk);
    && r.code == MkdirCode(names, Dead(t, 0)) && Dead(r.table, 0) == Dead(t, 0) - Made(names, Dead(t, 0))
    && WalkDirs(r.table, names, s, NONE).1 == Made(names, Dead(t, 0))
  }

  lemma FirstLongCons(names: seq<Name>)
    requires names != []
    ensures FirstLong(names) == if |names[0]| > FILENAME_LENGTH then 0 else 1 + FirstLong(names[1..])
  {
  }

  lemma {:induction false} BareAnswer(t: Table, names: seq<Name>, s: nat, junk: seq<byte>)
    requires Bare(t, s, names, junk)
    ensures |junk| == FILENAME_LENGTH && s < |t| <= ROOT && Answered(t, names, s, junk)
    decreases |names|
  {
    hide Bare, FreeFrom, Dead, NewNode, NewBelow, NameOf, FirstLong, Search, MkdirFrom;
    BareSlot(t, s, names, junk);
    if names == [] {
      NoNames(t, s, junk);
      NoneLong();
    } else {
      FirstLongCons(names);
      if |names[0]| > FILENAME_LENGTH {
        LongName(t, s, names, junk);
      } else {
        BareNext(t, s, names, junk);
        DeadFound(t, s, 0);
        var f := FreeFrom(t, s, 0);
        if f == NONE {
          FullNext(t, names, s, junk);
        } else {
          var t1 := t[f := NewNode(Directory, names[0], s, junk)];
          BareAnswer(t1, names[1..], f, junk);
          BareFinds(t, names, s, junk);
        }
      }
    }
  }

  lemma NoNames(t: Table, s: nat, junk: seq<byte>)
    requires |junk| == FILENAME_LENGTH && s < |t| <= ROOT
    ensures MkdirFrom(t, [], s, junk) == Outcome(t, IsDir)
  {
  }

  lemma NoneLong()
    ensures FirstLong([]) == 0
  {
  }

  lemma FullNext(t: Table, names: seq<Name>, pb: int, junk: seq<byte>)
    requires |junk| == FILENAME_LENGTH && |t| <= ROOT && (0 <= pb < |t| || pb == ROOT) && names != []
    requires SearchDir(t, names[0], pb, pb) == NONE && |names[0]| <= FILENAME_LENGTH && FreeFrom(t, pb, 0) == NONE
    ensures MkdirFrom(t, names, pb, junk) == Outcome(t, MkdirCode(names, 0))
  {
    FullAnswer(t, names[1..], junk);
    assert |names| > 1 ==> names[1..] != [] && FirstLong(names[1..]) == if |names[1]| > FILENAME_LENGTH then 0 else 1 + FirstLong(names[1..][1..]);
  }

  /** The directory made below a bare one is found there in the table mkdir leaves. */
  lemma BareFinds(t: Table, names: seq<Name>, s: nat, junk: seq<byte>)
    requires Bare(t, s, names, junk) && names != [] && |names[0]| <= FILENAME_LENGTH && FreeFrom(t, s, 0) != NONE
    ensures s < |t| <= ROOT && |junk| == FILENAME_LENGTH
    ensures SearchDir(MkdirFrom(t, names, s, junk).table, names[0], s, NONE) == FreeFrom(t, s, 0)
  {
    hide Bare, Dead, FreeFrom, ParentsLive;
    BareSlot(t, s, names, junk);
    BareNext(t, s, names, junk);
    NothingHere(t, names[0], s, names, junk);
    MadeIsFound(t, names, s, junk);
  }

  lemma NothingHere(t: Table, name: Name, s: nat, names: seq<Name>, junk: seq<byte>)
    requires Bare(t, s, names, junk)
    ensures Search(t, name, s, NONE) == NONE
  {
    NothingUnder(t, s, name, NONE);
  }

  /** A directory made under `d` is found unless a node by its name comes before it. */
  lemma MadeIsFound(t: Table, names: seq<Name>, d: int, junk: seq<byte>)
    requires |junk| == FILENAME_LENGTH && |t| <= ROOT && (d == ROOT || Live(t, d)) && names != [] && |names[0]| <= FILENAME_LENGTH
    requires Nameable(names[0]) && FreeFrom(t, d, 0) != NONE
    requires var s := FreeFrom(t, d, 0);
      Bare(t[s := NewNode(Directory, names[0], d, junk)], s, names[1..], junk)
    ensures var s := FreeFrom(t, d, 0);
      var t' := MkdirFrom(t[s := NewNode(Directory, names[0], d, junk)], names[1..], s, junk).table;
      && NewBelow(t, t', d) && IsDirectory(t', s)
      && var u := Search(t, names[0], d, NONE); Search(t', names[0], d, NONE) == if 0 <= u < s then u else s
  {
    hide Bare, NameOf, MkdirFrom;
    var s := FreeFrom(t, d, 0);
    var node := NewNode(Directory, names[0], d, junk);
    var t1 := t[s := node];
    NewDirectory(names[0], d, junk);
    NameSurvives(junk, names[0]);
    BareMakes(t1, names[1..], s, junk);
    var t' := MkdirFrom(t1, names[1..], s, junk).table;
    assert Live(t1, s);
    NewThenNew(t, s, node, t', d);
    FoundFirst(t, s, node, t', names[0], d);
  }

  // ---------- the way down ----------

  function Depth(t: Table, s: int, k: nat): nat
    requires Hangs(t, s, k, NONE)
    decreases k
  {
    if s == ROOT then 0 else 1 + Depth(t, t[s].parent, k - 1)
  }

  lemma {:induction false} DepthSame(t: Table, s: int, k: nat, k': nat)
    requires Hangs(t, s, k, NONE) && Hangs(t, s, k', NONE)
    ensures Depth(t, s, k) == Depth(t, s, k')
    decreases k
  {
    if s != ROOT { DepthSame(t, t[s].parent, k - 1, k' - 1); }
  }

  /** Each name of a path leads one level down. */
  lemma {:induction false} WalkDepth(t: Table, names: seq<Name>, pb: int, k: nat)
    requires |t| <= ROOT && Hangs(t, pb, k, NONE) && (pb == ROOT || IsDirectory(t, pb))
    ensures var (d, n) := WalkDirs(t, names, pb, NONE);
      Hangs(t, d, k + n, NONE) && Depth(t, d, k + n) == Depth(t, pb, k) + n && (d == ROOT || IsDirectory(t, d))
    decreases |names|
  {
    hide NameOf;
    if names != [] && SearchDir(t, names[0], pb, NONE) != NONE {
      WalkDepth(t, names[1..], SearchDir(t, names[0], pb, NONE), k + 1);
    }
  }

  lemma WalkLeaves(t: Table, names: seq<Name>, pb: int, k: nat)
    requires |t| <= ROOT && Hangs(t, pb, k, NONE) && (pb == ROOT || IsDirectory(t, pb)) && WalkDirs(t, names, pb, NONE).1 > 0
    ensures WalkDirs(t, names, pb, NONE).0 != pb
  {
    WalkDepth(t, names, pb, k);
    if WalkDirs(t, names, pb, NONE).0 == pb { DepthSame(t, pb, k, k + WalkDirs(t, names, pb, NONE).1); }
  }

  /** Elsewhere nothing new is found. */
  lemma FoundAsBefore(t: Table, t': Table, d: int, name: Name, e: int)
    requires |t| <= ROOT && NewBelow(t, t', d) && e != d && (e == ROOT || Live(t, e))
    ensures SearchDir(t', name, e, NONE) == SearchDir(t, name, e, NONE)
  {
    hide NameOf;
    forall x ensures Hit(t', x, name, e, NONE) <==> Hit(t, x, name, e, NONE) {
      if Live(t, x) { assert t'[x] == t[x]; }
    }
    var u, u' := Search(t, name, e, NONE), Search(t', name, e, NONE);
    if u != NONE { assert Live(t, u) && t'[u] == t[u]; }
  }

  // ---------- the answer ----------

  ghost predicate Tree(t: Table, names: seq<Name>, pb: int, junk: seq<byte>, k: nat) {
    && |junk| == FILENAME_LENGTH && |t| <= ROOT && AllRooted(t)
    && Hangs(t, pb, k, NONE) && (pb == ROOT || IsDirectory(t, pb))
    && forall i :: 0 <= i < |names| ==> Nameable(names[i])
  }

  /** A node by that name, which is no directory, comes before the slot a new one would get. */
  predicate Hidden(t: Table, name: Name, d: int)
    requires |t| <= ROOT
  {
    0 <= Search(t, name, d, NONE) < FreeFrom(t, d, 0)
  }

  /** With `missing` names left to create: the reply, how many of them become directories, that nothing
      else changes, and that the path leads that far, unless the first of them is hidden by a file. */
  ghost predicate Claimed(t: Table, names: seq<Name>, pb: int, junk: seq<byte>)
    requires |junk| == FILENAME_LENGTH && |t| <= ROOT && (0 <= pb < |t| || pb == ROOT)
  {
    var r := MkdirFrom(t, names, pb, junk);
    var (d, n) := WalkDirs(t, names, pb, NONE);
    var missing := names[n..];
    && NewBelow(t, r.table, d)
    && r.code == MkdirCode(missing, Dead(t, 0)) && Dead(r.table, 0) == Dead(t, 0) - Made(missing, Dead(t, 0))
    && WalkDirs(r.table, names, pb, NONE).1 == n + if missing != [] && Hidden(t, missing[0], d) then 0 else Made(missing, Dead(t, 0))
  }

  lemma ClaimedBelow(t: Table, names: seq<Name>, pb: int, junk: seq<byte>, k: nat)
    requires Tree(t, names, pb, junk, k) && names != [] && SearchDir(t, names[0], pb, NONE) != NONE
    requires Claimed(t, names[1..], SearchDir(t, names[0], pb, NONE), junk)
    ensures Claimed(t, names, pb, junk)
  {
    hide Dead, Search, NewNode, FirstLong, NewBelow, Hidden, AllRooted;
    var e := SearchDir(t, names[0], pb, NONE);
    OwnerIgnored(t, names[0], pb, 0);
    SameSearch(t, names[0], pb);
    WalkLeaves(t, names, pb, k);
    FoundAsBefore(t, MkdirFrom(t, names, pb, junk).table, WalkDirs(t, names, pb, NONE).0, names[0], pb);
    var n := WalkDirs(t, names[1..], e, NONE).1;
    assert names[1..][n..] == names[n + 1..];
  }

  lemma SameSearch(t: Table, name: Name, pb: int)
    requires SearchFrom(t, name, pb, pb, 0) == SearchFrom(t, name, pb, NONE, 0)
    ensures SearchDir(t, name, pb, pb) == SearchDir(t, name, pb, NONE)
  {
  }

  lemma TreeBare(t: Table, names: seq<Name>, pb: int, junk: seq<byte>, k: nat)
    requires Tree(t, names, pb, junk, k) && names != [] && |names[0]| <= FILENAME_LENGTH && FreeFrom(t, pb, 0) != NONE
    ensures var s := FreeFrom(t, pb, 0);
      var t1 := t[s := NewNode(Directory, names[0], pb, junk)];
      Bare(t1, s, names[1..], junk) && Dead(t1, 0) == Dead(t, 0) - 1
  {
    hide NameOf, FreeFrom, Dead;
    var s := FreeFrom(t, pb, 0);
    var node := NewNode(Directory, names[0], pb, junk);
    RootedParents(t);
    NewDirectory(names[0], pb, junk);
    TakenIsChildless(t, s, node);
    DeadTaken(t, s, node, 0);
  }

  /** The first missing name is made here. */
  lemma ClaimedHere(t: Table, names: seq<Name>, pb: int, junk: seq<byte>, k: nat)
    requires Tree(t, names, pb, junk, k) && names != [] && SearchDir(t, names[0], pb, NONE) == NONE
    requires |names[0]| <= FILENAME_LENGTH && FreeFrom(t, pb, 0) != NONE
    ensures Claimed(t, names, pb, junk)
  {
    hide Dead, NewNode, FirstLong, NewBelow, AllRooted, Bare, FreeFrom, Search, NameOf;
    var s := FreeFrom(t, pb, 0);
    var t1 := t[s := NewNode(Directory, names[0], pb, junk)];
    OwnerIgnored(t, names[0], pb, 0);
    SameSearch(t, names[0], pb);
    TreeBare(t, names, pb, junk, k);
    BareAnswer(t1, names[1..], s, junk);
    MadeIsFound(t, names, pb, junk);
    FirstLongCons(names);
    NoDirectoryHere(t, names[0], pb, MkdirFrom(t1, names[1..], s, junk).table);
    assert names[0..] == names;
  }

  /** A hit that is no directory is none in a table that keeps it. */
  lemma NoDirectoryHere(t: Table, name: Name, pb: int, t': Table)
    requires SearchDir(t, name, pb, NONE) == NONE && NewBelow(t, t', pb)
    ensures var u := Search(t, name, pb, NONE); u != NONE ==> !IsDirectory(t', u)
  {
    var u := Search(t, name, pb, NONE);
    if u != NONE { assert Live(t, u); }
  }

  lemma ClaimedNothing(t: Table, names: seq<Name>, pb: int, junk: seq<byte>, k: nat)
    requires Tree(t, names, pb, junk, k)
    requires names == [] || (SearchDir(t, names[0], pb, NONE) == NONE && (|names[0]| > FILENAME_LENGTH || FreeFrom(t, pb, 0) == NONE))
    ensures Claimed(t, names, pb, junk)
  {
    hide Dead, NewNode, NewBelow, AllRooted, FreeFrom, Search, NameOf;
    SameTable(t, WalkDirs(t, names, pb, NONE).0);
    if names != [] {
      OwnerIgnored(t, names[0], pb, 0);
      SameSearch(t, names[0], pb);
      DeadFound(t, pb, 0);
      assert names[0..] == names;
      if |names[0]| <= FILENAME_LENGTH {
        FullNext(t, names, pb, junk);
      }
    } else {
      assert names[0..] == [];
    }
  }

  /** mkdir in any tree. */
  lemma {:induction false} MkdirAnswer(t: Table, names: seq<Name>, pb: int, junk: seq<byte>, k: nat)
    requires Tree(t, names, pb, junk, k)
    ensures Claimed(t, names, pb, junk)
    decreases |names|
  {
    hide Claimed, FreeFrom, Search, AllRooted, Dead;
    if names == [] || SearchDir(t, names[0], pb, NONE) == NONE {
      if names == [] || |names[0]| > FILENAME_LENGTH || FreeFrom(t, pb, 0) == NONE {
        ClaimedNothing(t, names, pb, junk, k);
      } else {
        ClaimedHere(t, names, pb, junk, k);
      }
    } else {
      TreeBelow(t, names, pb, junk, k);
      MkdirAnswer(t, names[1..], SearchDir(t, names[0], pb, NONE), junk, k + 1);
      ClaimedBelow(t, names, pb, junk, k);
    }
  }

  lemma TreeBelow(t: Table, names: seq<Name>, pb: int, junk: seq<byte>, k: nat)
    requires Tree(t, names, pb, junk, k) && names != [] && SearchDir(t, names[0], pb, NONE) != NONE
    ensures Tree(t, names[1..], SearchDir(t, names[0], pb, NONE), junk, k + 1)
  {
  }

  /** mkdir claims a directory that is not there exactly when the missing names are short enough and
      either one more than there are free slots, or no more than that, but the first of them is the name of
      a file in an earlier slot than the one the new directory gets. */
  lemma MkdirClaimsFalsely(t: Table, names: seq<Name>, junk: seq<byte>)
    requires |junk| == FILENAME_LENGTH && |t| <= ROOT && AllRooted(t)
    requires forall i :: 0 <= i < |names| ==> Nameable(names[i])
    ensures var r := Mkdir(t, names, junk);
      var (d, n) := WalkDirs(t, names, ROOT, NONE);
      var missing := names[n..];
      (r.code == IsDir && WalkDirs(r.table, names, ROOT, NONE).1 < |names|) <==>
        Short(missing) && |missing| <= Dead(t, 0) + 1 &&
        (|missing| == Dead(t, 0) + 1 || (missing != [] && 0 <= Search(t, missing[0], d, NONE) < FreeFrom(t, d, 0)))
  {
    hide Short, Dead, AllRooted, NewBelow, Search, FreeFrom, MkdirFrom, FirstLong;
    MkdirAnswer(t, names, ROOT, junk, 0);
    ShortIff(names[WalkDirs(t, names, ROOT, NONE).1..]);
  }
}
