/** One pokemon in one place, one trainer in one queue, nobody waiting for nothing. */
module SchedulerSafety {
  import opened Schedulers

  // ---------- where pokemons are ----------

  datatype Place = At(nest: char8) | With(trainer: int)

  function Bag(s: State, q: Place): multiset<Pokemon> {
    match q
    case At(n) => if n in s.nests then multiset(s.nests[n].pokemons) else multiset{}
    case With(t) => if t in s.trainers then multiset(s.trainers[t].pokemons) else multiset{}
  }

  /** How often a place holds a pokemon. */
  function Copies(s: State, q: Place, p: Pokemon): nat {
    Bag(s, q)[p]
  }

  /** Every pokemon of `all`, and no other, is in exactly one place, once. */
  ghost predicate EachOnce(s: State, all: set<Pokemon>) {
    && (forall q, p :: Copies(s, q, p) <= 1 && (Copies(s, q, p) == 1 ==> p in all))
    && (forall q, q', p :: Copies(s, q, p) == 1 && Copies(s, q', p) == 1 ==> q == q')
    && (forall p :: p in all ==> Kept(s, p))
  }

  ghost predicate Kept(s: State, p: Pokemon) {
    exists q :: Copies(s, q, p) == 1
  }

  ghost predicate SameBags(s: State, s': State) {
    forall q, p :: Copies(s', q, p) == Copies(s, q, p)
  }

  /** `p` goes from one place to another; nothing else does. */
  ghost predicate Moves(s: State, s': State, p: Pokemon, from: Place, to: Place) {
    && from != to && Copies(s, from, p) >= 1
    && forall q, o :: Copies(s', q, o) == Copies(s, q, o) + if o != p then 0 else if q == from then -1 else if q == to then 1 else 0
  }

  /** The same, on whole bags. */
  ghost predicate BagsMove(s: State, s': State, p: Pokemon, from: Place, to: Place) {
    && from != to && p in Bag(s, from)
    && Bag(s', from) == Bag(s, from) - multiset{p}
    && Bag(s', to) == Bag(s, to) + multiset{p}
    && forall q :: q != from && q != to ==> Bag(s', q) == Bag(s, q)
  }

  lemma BagsMoveMoves(s: State, s': State, p: Pokemon, from: Place, to: Place)
    requires BagsMove(s, s', p, from, to)
    ensures Moves(s, s', p, from, to)
  {
    hide Bag;
    forall q, o ensures Copies(s', q, o) == Copies(s, q, o) + if o != p then 0 else if q == from then -1 else if q == to then 1 else 0 {
      assert q != from && q != to ==> Bag(s', q) == Bag(s, q);
    }
  }

  lemma SameKeepsOnce(s: State, s': State, all: set<Pokemon>)
    requires EachOnce(s, all) && SameBags(s, s')
    ensures EachOnce(s', all)
  {
    hide Copies;
    forall p | p in all ensures Kept(s', p) {
      assert Kept(s, p);
      var q :| Copies(s, q, p) == 1;
      assert Copies(s', q, p) == 1;
    }
  }

  lemma MoveKeepsOnce(s: State, s': State, p: Pokemon, from: Place, to: Place, all: set<Pokemon>)
    requires EachOnce(s, all) && Moves(s, s', p, from, to)
    ensures EachOnce(s', all)
  {
    hide Copies;
    assert Copies(s, from, p) == 1 && Copies(s, to, p) == 0;
    forall q ensures Copies(s', q, p) == if q == to then 1 else 0 {
      assert Copies(s, q, p) == if q == from then 1 else 0;
    }
    forall o | o in all ensures Kept(s', o) {
      assert Kept(s, o);
      var q :| Copies(s, q, o) == 1;
      assert Copies(s', if o == p then to else q, o) == 1;
    }
  }

  // ---------- the invariant ----------

  /** Every live trainer is ready, blocked or running, and once. */
  ghost predicate Partitioned(s: State, running: seq<int>) {
    multiset(s.ready + s.blocked + running) == multiset(s.trainers.Keys)
  }

  /** Nests hold their own pokemons and count them, modulo the width of a char; trainers look for nests
      and carry pokemons that exist. */
  ghost predicate NestsOk(s: State) {
    && (forall n :: n in s.nests ==> n != NOBODY && s.nests[n].count == AsChar(|s.nests[n].pokemons|))
    && (forall n, i :: n in s.nests && 0 <= i < |s.nests[n].pokemons| ==> s.nests[n].pokemons[i].nest == n)
    && (forall t :: t in s.trainers ==> s.trainers[t].target == NOBODY || s.trainers[t].target in s.nests)
    && (forall t, i :: t in s.trainers && 0 <= i < |s.trainers[t].pokemons| ==> s.trainers[t].pokemons[i].nest in s.nests)
  }

  /** Whoever is blocked waits at an empty nest. */
  ghost predicate WaitsAtEmpty(s: State, t: int) {
    t in s.trainers && s.trainers[t].target in s.nests && s.nests[s.trainers[t].target].pokemons == []
  }

  ghost predicate WaitsOk(s: State) {
    forall i :: 0 <= i < |s.blocked| ==> WaitsAtEmpty(s, s.blocked[i])
  }

  ghost predicate Inv(s: State, running: seq<int>, all: set<Pokemon>) {
    Partitioned(s, running) && NestsOk(s) && WaitsOk(s) && EachOnce(s, all)
  }

  /** The count is the list's length as long as that fits a char. */
  lemma CountIsLength(s: State, n: char8)
    requires NestsOk(s) && n in s.nests
    ensures s.nests[n].count == |s.nests[n].pokemons| <==> |s.nests[n].pokemons| <= 127
  {
  }

  // ---------- queues ----------

  lemma InQueue(q: seq<int>, i: nat)
    requires i < |q|
    ensures q[i] in multiset(q)
  {
  }

  lemma PartitionMembers(s: State, running: seq<int>)
    requires Partitioned(s, running)
    ensures forall i :: 0 <= i < |s.ready| ==> s.ready[i] in s.trainers
    ensures forall i :: 0 <= i < |s.blocked| ==> s.blocked[i] in s.trainers
    ensures forall i :: 0 <= i < |running| ==> running[i] in s.trainers
  {
    var keys := multiset(s.trainers.Keys);
    assert multiset(s.ready + s.blocked + running) == multiset(s.ready) + multiset(s.blocked) + multiset(running);
    forall i | 0 <= i < |s.ready| ensures s.ready[i] in keys { InQueue(s.ready, i); }
    forall i | 0 <= i < |s.blocked| ensures s.blocked[i] in keys { InQueue(s.blocked, i); }
    forall i | 0 <= i < |running| ensures running[i] in keys { InQueue(running, i); }
  }

  /** The running trainer is in no queue; nobody is blocked twice. */
  lemma RunningIsAlone(s: State, t: int)
    requires Partitioned(s, [t])
    ensures t in s.trainers && t !in s.blocked && t !in s.ready
  {
    PartitionMembers(s, [t]);
    assert [t][0] == t;
    var keys := multiset(s.trainers.Keys);
    assert multiset(s.ready + s.blocked + [t]) == multiset(s.ready) + multiset(s.blocked) + multiset{t};
    assert keys[t] == 1;
    assert t in s.blocked ==> t in multiset(s.blocked);
    assert t in s.ready ==> t in multiset(s.ready);
  }

  lemma WithoutCounts(q: seq<int>, i: nat)
    requires i < |q|
    ensures multiset(q) == multiset(Without(q, i)) + multiset{q[i]}
  {
    assert q == q[..i] + [q[i]] + q[i + 1..];
  }

  lemma TwiceCounts(q: seq<int>, i: nat, j: nat)
    requires i < |q| && j < |q| && i != j && q[i] == q[j]
    ensures multiset(q)[q[i]] >= 2
  {
    WithoutCounts(q, i);
    var rest := Without(q, i);
    InQueue(rest, if j < i then j else j - 1);
  }

  lemma BlockedOnce(s: State, running: seq<int>, i: nat, j: nat)
    requires Partitioned(s, running) && i < |s.blocked| && j < |s.blocked| && s.blocked[i] == s.blocked[j]
    ensures i == j
  {
    var b := s.blocked[i];
    assert multiset(s.trainers.Keys)[b] <= 1;
    assert multiset(s.ready + s.blocked + running) == multiset(s.ready) + multiset(s.blocked) + multiset(running);
    if i != j { TwiceCounts(s.blocked, i, j); }
  }

  // ---------- one request ----------

  lemma Rearranged(order: seq<Pokemon> -> seq<Pokemon>, l: seq<Pokemon>)
    requires Rearranges(order)
    ensures multiset(order(l)) == multiset(l) && |order(l)| == |l|
    ensures forall i :: 0 <= i < |order(l)| ==> order(l)[i] in l
  {
    assert |multiset(order(l))| == |order(l)| && |multiset(l)| == |l|;
    forall i | 0 <= i < |order(l)| ensures order(l)[i] in l {
      assert order(l)[i] in multiset(order(l));
    }
  }

  lemma HeadMoves(l: seq<Pokemon>)
    requires l != []
    ensures multiset(l[1..]) == multiset(l) - multiset{l[0]} && l[0] in multiset(l)
  {
    assert l == [l[0]] + l[1..];
  }

  /** A capture moves one pokemon of the nest, whichever the sort puts first, to the trainer. */
  lemma CatchMoves(s: State, t: int, n: char8, order: seq<Pokemon> -> seq<Pokemon>)
    requires Answerable(s, t, Catch(n)) && Rearranges(order)
    ensures var (s', reply) := Serve(s, t, Catch(n), order);
      && (reply == NotFound <==> s.nests[n].pokemons == [])
      && (reply == NotFound ==> s' == s)
      && (reply != NotFound ==> reply == Caught && Moves(s, s', order(s.nests[n].pokemons)[0], At(n), With(t)))
  {
    hide Moves;
    var l := s.nests[n].pokemons;
    Rearranged(order, l);
    var (s', reply) := Serve(s, t, Catch(n), order);
    if l == [] {
      assert s.nests[n := s.nests[n].(pokemons := [])] == s.nests;
    } else {
      HeadMoves(order(l));
      assert BagsMove(s, s', order(l)[0], At(n), With(t));
      BagsMoveMoves(s, s', order(l)[0], At(n), With(t));
    }
  }

  lemma CountTaken(n: int)
    ensures AsChar(AsChar(n) - 1) == AsChar(n - 1) && AsChar(AsChar(n) + 1) == AsChar(n + 1)
  {
  }

  lemma CatchKeepsNests(s: State, t: int, n: char8, order: seq<Pokemon> -> seq<Pokemon>)
    requires Answerable(s, t, Catch(n)) && Rearranges(order) && NestsOk(s)
    ensures NestsOk(Serve(s, t, Catch(n), order).0)
  {
    Rearranged(order, s.nests[n].pokemons);
    CountTaken(|s.nests[n].pokemons|);
  }

  lemma ServeSameBags(s: State, t: int, req: Request, order: seq<Pokemon> -> seq<Pokemon>)
    requires Answerable(s, t, req) && !req.Catch?
    ensures SameBags(s, Serve(s, t, req, order).0)
  {
  }

  lemma ServeKeepsQueues(s: State, t: int, req: Request, order: seq<Pokemon> -> seq<Pokemon>)
    requires Answerable(s, t, req)
    ensures var s' := Serve(s, t, req, order).0;
      s'.ready == s.ready && s'.blocked == s.blocked && s'.trainers.Keys == s.trainers.Keys && s'.nests.Keys == s.nests.Keys
  {
  }

  lemma ServeKeepsNests(s: State, t: int, req: Request, order: seq<Pokemon> -> seq<Pokemon>)
    requires Answerable(s, t, req) && Rearranges(order) && NestsOk(s)
    ensures NestsOk(Serve(s, t, req, order).0)
  {
    if req.Catch? { CatchKeepsNests(s, t, req.nest, order); }
  }

  lemma ServeKeepsWaits(s: State, t: int, req: Request, order: seq<Pokemon> -> seq<Pokemon>)
    requires Answerable(s, t, req) && Rearranges(order) && WaitsOk(s) && t !in s.blocked
    ensures WaitsOk(Serve(s, t, req, order).0)
  {
    if req.Catch? { Rearranged(order, s.nests[req.nest].pokemons); }
    var s' := Serve(s, t, req, order).0;
    forall i | 0 <= i < |s'.blocked| ensures WaitsAtEmpty(s', s'.blocked[i]) {
      assert WaitsAtEmpty(s, s.blocked[i]);
    }
  }

  /** Serving the running trainer keeps everything. */
  lemma ServeKeeps(s: State, t: int, req: Request, order: seq<Pokemon> -> seq<Pokemon>, all: set<Pokemon>)
    requires Answerable(s, t, req) && Rearranges(order) && Inv(s, [t], all)
    ensures Inv(Serve(s, t, req, order).0, [t], all)
  {
    hide NestsOk, WaitsOk, EachOnce, Serve, Rearranges;
    RunningIsAlone(s, t);
    ServeKeepsQueues(s, t, req, order);
    ServeKeepsNests(s, t, req, order);
    ServeKeepsWaits(s, t, req, order);
    var s' := Serve(s, t, req, order).0;
    if req.Catch? {
      CatchMoves(s, t, req.nest, order);
      Rearranged(order, s.nests[req.nest].pokemons);
      if Serve(s, t, req, order).1 != NotFound {
        MoveKeepsOnce(s, s', order(s.nests[req.nest].pokemons)[0], At(req.nest), With(t), all);
      }
    } else {
      ServeSameBags(s, t, req, order);
      SameKeepsOnce(s, s', all);
    }
  }

  // ---------- release ----------

  lemma InvReleasable(s: State, t: int, all: set<Pokemon>)
    requires Inv(s, [t], all)
    ensures Releasable(s, t)
  {
    PartitionMembers(s, [t]);
    RunningIsAlone(s, t);
  }

  lemma TrainerToTrainer(s: State, s': State, t: int, b: int, p: Pokemon)
    requires t != b && t in s.trainers && b in s.trainers && s'.nests == s.nests && s'.trainers.Keys == s.trainers.Keys
    requires s.trainers[t].pokemons == [p] + s'.trainers[t].pokemons && s'.trainers[b].pokemons == s.trainers[b].pokemons + [p]
    requires forall x :: x in s.trainers && x != t && x != b ==> s'.trainers[x] == s.trainers[x]
    ensures Moves(s, s', p, With(t), With(b))
  {
    hide Moves;
    assert BagsMove(s, s', p, With(t), With(b));
    BagsMoveMoves(s, s', p, With(t), With(b));
  }

  lemma TrainerToNest(s: State, s': State, t: int, n: char8, p: Pokemon)
    requires t in s.trainers && n in s.nests && s'.nests.Keys == s.nests.Keys && s'.trainers.Keys == s.trainers.Keys
    requires s.trainers[t].pokemons == [p] + s'.trainers[t].pokemons && s'.nests[n].pokemons == s.nests[n].pokemons + [p]
    requires forall x :: x in s.trainers && x != t ==> s'.trainers[x] == s.trainers[x]
    requires forall x :: x in s.nests && x != n ==> s'.nests[x] == s.nests[x]
    ensures Moves(s, s', p, With(t), At(n))
  {
    hide Moves;
    assert BagsMove(s, s', p, With(t), At(n));
    BagsMoveMoves(s, s', p, With(t), At(n));
  }

  lemma HandOnMoves(s: State, t: int)
    requires Releasable(s, t) && s.trainers[t].pokemons != []
    ensures var p := s.trainers[t].pokemons[0];
      var i := FirstWaiting(s, p.nest, 0);
      Moves(s, HandOn(s, t), p, With(t), if i < |s.blocked| then With(s.blocked[i]) else At(p.nest))
  {
    hide Moves;
    var p := s.trainers[t].pokemons[0];
    var i := FirstWaiting(s, p.nest, 0);
    assert s.trainers[t].pokemons == [p] + s.trainers[t].pokemons[1..];
    if i < |s.blocked| {
      TrainerToTrainer(s, HandOn(s, t), t, s.blocked[i], p);
    } else {
      TrainerToNest(s, HandOn(s, t), t, p.nest, p);
    }
  }

  lemma HandOnKeepsPartition(s: State, t: int)
    requires Releasable(s, t) && s.trainers[t].pokemons != [] && Partitioned(s, [t])
    ensures Partitioned(HandOn(s, t), [t])
  {
    var p := s.trainers[t].pokemons[0];
    var i := FirstWaiting(s, p.nest, 0);
    var s' := HandOn(s, t);
    assert s'.trainers.Keys == s.trainers.Keys;
    if i < |s.blocked| {
      WithoutCounts(s.blocked, i);
      assert Without(s.blocked, i) == s'.blocked;
      assert multiset(s'.ready + s'.blocked + [t]) == multiset(s.ready) + multiset{s.blocked[i]} + multiset(s'.blocked) + multiset{t};
      assert multiset(s.ready + s.blocked + [t]) == multiset(s.ready) + multiset(s.blocked) + multiset{t};
    }
  }

  lemma HandOnKeepsNests(s: State, t: int)
    requires Releasable(s, t) && s.trainers[t].pokemons != [] && NestsOk(s)
    ensures NestsOk(HandOn(s, t))
  {
    var p := s.trainers[t].pokemons[0];
    CountTaken(|s.nests[p.nest].pokemons|);
  }

  lemma HandOnKeepsWaits(s: State, t: int)
    requires Releasable(s, t) && s.trainers[t].pokemons != [] && Partitioned(s, [t]) && WaitsOk(s)
    ensures WaitsOk(HandOn(s, t))
  {
    var p := s.trainers[t].pokemons[0];
    var i := FirstWaiting(s, p.nest, 0);
    var s' := HandOn(s, t);
    forall j | 0 <= j < |s'.blocked| ensures WaitsAtEmpty(s', s'.blocked[j]) {
      var k := if j < i then j else j + 1;
      if i < |s.blocked| {
        assert s'.blocked[j] == s.blocked[k];
        if s.blocked[k] == s.blocked[i] { BlockedOnce(s, [t], k, i); }
        assert WaitsAtEmpty(s, s.blocked[k]);
      } else {
        assert WaitsAtEmpty(s, s.blocked[j]);
        assert s.trainers[s.blocked[j]].target != p.nest;
      }
    }
  }

  lemma HandOnKeeps(s: State, t: int, all: set<Pokemon>)
    requires Releasable(s, t) && s.trainers[t].pokemons != [] && Inv(s, [t], all)
    ensures Inv(HandOn(s, t), [t], all)
  {
    hide NestsOk, WaitsOk, EachOnce, HandOn, Moves, Partitioned;
    HandOnMoves(s, t);
    HandOnKeepsPartition(s, t);
    HandOnKeepsNests(s, t);
    HandOnKeepsWaits(s, t);
    var p := s.trainers[t].pokemons[0];
    var i := FirstWaiting(s, p.nest, 0);
    MoveKeepsOnce(s, HandOn(s, t), p, With(t), if i < |s.blocked| then With(s.blocked[i]) else At(p.nest), all);
  }

  lemma {:induction false} HandOnAllKeeps(s: State, t: int, all: set<Pokemon>)
    requires Releasable(s, t) && Inv(s, [t], all)
    ensures Inv(HandOnAll(s, t), [t], all)
    decreases |s.trainers[t].pokemons|
  {
    hide Inv, HandOn;
    if s.trainers[t].pokemons != [] {
      HandOnKeeps(s, t, all);
      HandOnAllKeeps(HandOn(s, t), t, all);
    }
  }

  lemma GonePartition(s: State, t: int)
    requires Partitioned(s, [t])
    ensures Partitioned(s.(trainers := s.trainers - {t}), [])
  {
    RunningIsAlone(s, t);
    var s' := s.(trainers := s.trainers - {t});
    assert s'.trainers.Keys == s.trainers.Keys - {t};
    assert multiset(s'.trainers.Keys) == multiset(s.trainers.Keys) - multiset{t};
    assert s.ready + s.blocked + [] == s.ready + s.blocked;
    assert multiset(s.ready + s.blocked + [t]) == multiset(s.ready + s.blocked) + multiset{t};
  }

  lemma GoneWaits(s: State, t: int)
    requires WaitsOk(s) && t !in s.blocked
    ensures WaitsOk(s.(trainers := s.trainers - {t}))
  {
    var s' := s.(trainers := s.trainers - {t});
    forall i | 0 <= i < |s'.blocked| ensures WaitsAtEmpty(s', s'.blocked[i]) {
      assert s'.blocked[i] == s.blocked[i] && s.blocked[i] in s.blocked;
      assert WaitsAtEmpty(s, s.blocked[i]);
    }
  }

  lemma GoneBags(s: State, t: int)
    requires t in s.trainers && s.trainers[t].pokemons == []
    ensures SameBags(s, s.(trainers := s.trainers - {t}))
  {
  }

  lemma GoneKeeps(s: State, t: int, all: set<Pokemon>)
    requires Inv(s, [t], all) && t in s.trainers && s.trainers[t].pokemons == []
    ensures Inv(s.(trainers := s.trainers - {t}), [], all)
  {
    hide EachOnce, SameBags, Partitioned, WaitsOk;
    RunningIsAlone(s, t);
    GonePartition(s, t);
    GoneWaits(s, t);
    GoneBags(s, t);
    SameKeepsOnce(s, s.(trainers := s.trainers - {t}), all);
  }

  /** A leaving trainer leaves nothing behind: all it had is with a waiting trainer or back in a nest. */
  lemma ReleaseKeeps(s: State, t: int, all: set<Pokemon>)
    requires Releasable(s, t) && Inv(s, [t], all)
    ensures Inv(Release(s, t), [], all) && t !in Release(s, t).trainers
  {
    hide Inv;
    HandOnAllKeeps(s, t, all);
    GoneKeeps(HandOnAll(s, t), t, all);
  }

  /** Each pokemon let go wakes the first blocked trainer that waits for its nest, and only it. */
  lemma WakesFirstWaiting(s: State, t: int, i: nat)
    requires Releasable(s, t) && s.trainers[t].pokemons != [] && i < |s.blocked|
    requires var n := s.trainers[t].pokemons[0].nest;
      s.trainers[s.blocked[i]].target == n && forall j :: 0 <= j < i ==> s.trainers[s.blocked[j]].target != n
    ensures var b := s.blocked[i];
      var s' := HandOn(s, t);
      && s'.ready == s.ready + [b] && s'.blocked == Without(s.blocked, i)
      && s'.trainers[b].pokemons == s.trainers[b].pokemons + [s.trainers[t].pokemons[0]]
      && s'.trainers[b].target == NOBODY && s'.nests == s.nests
  {
  }
}
