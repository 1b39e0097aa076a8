/** Who is blocked longest is woken first, over whole runs. */
module BlockedQueues {
  import opened Schedulers
  import opened SchedulerSafety
  import opened SchedulerBursts
  import opened SchedulerRuns

  // ---------- order in a queue ----------

  predicate Distinct(q: seq<int>) {
    forall i, j :: 0 <= i < j < |q| ==> q[i] != q[j]
  }

  ghost predicate Ahead(q: seq<int>, a: int, b: int) {
    exists i, j :: 0 <= i < j < |q| && q[i] == a && q[j] == b
  }

  lemma AheadOneWay(q: seq<int>, a: int, b: int)
    requires Distinct(q)
    ensures !(Ahead(q, a, b) && Ahead(q, b, a))
  {
    if Ahead(q, a, b) {
      var i, j :| 0 <= i < j < |q| && q[i] == a && q[j] == b;
      assert forall k, l :: 0 <= k < l < |q| && q[k] == b && q[l] == a ==> k == j && l == i;
    }
  }

  /** Some have left the queue; the others are in the order they were in. */
  ghost predicate Shrinks(q: seq<int>, q': seq<int>) {
    && Distinct(q') && (forall a :: a in q' ==> a in q)
    && forall a, b :: a in q' && b in q' ==> (Ahead(q', a, b) <==> Ahead(q, a, b))
  }

  lemma WithoutAt(q: seq<int>, i: nat, k: nat)
    requires i < |q| && k < |q| && k != i
    ensures var k' := if k < i then k else k - 1; k' < |Without(q, i)| && Without(q, i)[k'] == q[k]
  {
  }

  lemma WithoutFrom(q: seq<int>, i: nat, k: nat)
    requires i < |q| && k < |q| - 1
    ensures k < |Without(q, i)| && Without(q, i)[k] == q[if k < i then k else k + 1]
  {
  }

  lemma LeavesMembers(q: seq<int>, i: nat)
    requires Distinct(q) && i < |q|
    ensures Distinct(Without(q, i)) && q[i] !in Without(q, i)
    ensures forall a :: a in Without(q, i) <==> a in q && a != q[i]
  {
    hide Without;
    var q' := Without(q, i);
    WithoutLength(q, i);
    forall k | 0 <= k < |q'| ensures q'[k] == q[if k < i then k else k + 1] { WithoutFrom(q, i, k); }
    forall a | a in q && a != q[i] ensures a in q' {
      var k :| 0 <= k < |q| && q[k] == a;
      WithoutAt(q, i, k);
    }
  }

  lemma WithoutLength(q: seq<int>, i: nat)
    requires i < |q|
    ensures |Without(q, i)| == |q| - 1
  {
  }

  lemma LeavesAhead(q: seq<int>, i: nat, a: int, b: int)
    requires i < |q| && a != q[i] && b != q[i]
    ensures Ahead(Without(q, i), a, b) <==> Ahead(q, a, b)
  {
    hide Without;
    var q' := Without(q, i);
    WithoutLength(q, i);
    if Ahead(q', a, b) {
      var k, l :| 0 <= k < l < |q'| && q'[k] == a && q'[l] == b;
      WithoutFrom(q, i, k);
      WithoutFrom(q, i, l);
    }
    if Ahead(q, a, b) {
      var k, l :| 0 <= k < l < |q| && q[k] == a && q[l] == b;
      WithoutAt(q, i, k);
      WithoutAt(q, i, l);
    }
  }

  lemma Leaves(q: seq<int>, i: nat)
    requires Distinct(q) && i < |q|
    ensures Shrinks(q, Without(q, i)) && forall a :: a in Without(q, i) <==> a in q && a != q[i]
  {
    hide Without, Ahead, Distinct;
    LeavesMembers(q, i);
    forall a, b | a in q && a != q[i] && b in q && b != q[i] ensures Ahead(Without(q, i), a, b) <==> Ahead(q, a, b) {
      LeavesAhead(q, i, a, b);
    }
  }

  /** The newcomer is behind everyone; the others are in the order they were in. */
  lemma Joins(q: seq<int>, t: int, a: int, b: int)
    requires Distinct(q) && t !in q && a in q && b in q
    ensures Distinct(q + [t]) && Ahead(q + [t], a, t) && (Ahead(q + [t], a, b) <==> Ahead(q, a, b))
  {
    var q' := q + [t];
    assert q'[..|q|] == q && q'[|q|] == t;
    var k :| 0 <= k < |q| && q[k] == a;
    assert q'[k] == a;
    if Ahead(q', a, b) {
      var i, j :| 0 <= i < j < |q'| && q'[i] == a && q'[j] == b;
      assert j < |q| && q[i] == a && q[j] == b;
    }
    if Ahead(q, a, b) {
      var i, j :| 0 <= i < j < |q| && q[i] == a && q[j] == b;
      assert q'[i] == a && q'[j] == b;
    }
  }

  lemma BlockedDistinct(s: State, running: seq<int>, all: set<Pokemon>)
    requires Inv(s, running, all)
    ensures Distinct(s.blocked) && Present(s, s.blocked)
  {
    PartitionMembers(s, running);
    forall i, j | 0 <= i < j < |s.blocked| ensures s.blocked[i] != s.blocked[j] {
      if s.blocked[i] == s.blocked[j] { BlockedOnce(s, running, i, j); }
    }
  }

  // ---------- one release ----------

  /** Whoever stays blocked keeps its target. */
  predicate TargetsStay(s: State, s': State) {
    forall c :: c in s'.blocked ==> c in s.trainers && c in s'.trainers && s'.trainers[c].target == s.trainers[c].target
  }

  /** Of two that waited at one nest, the one woken was ahead of the one still blocked. */
  ghost predicate WakesInOrder(s: State, s': State) {
    forall b, c :: b in s.blocked && c in s.blocked && b in s.trainers && c in s.trainers
      && s.trainers[b].target == s.trainers[c].target
      && b in s'.trainers && b !in s'.blocked && c in s'.blocked
      ==> Ahead(s.blocked, b, c)
  }

  lemma FirstIsAhead(s: State, nest: char8, c: int)
    requires Present(s, s.blocked) && c in s.blocked && s.trainers[c].target == nest
    ensures var i := FirstWaiting(s, nest, 0); i < |s.blocked| && (s.blocked[i] == c || Ahead(s.blocked, s.blocked[i], c))
  {
    var j :| 0 <= j < |s.blocked| && s.blocked[j] == c;
    assert FirstWaiting(s, nest, 0) <= j;
  }

  lemma HandOnOrder(s: State, t: int)
    requires Releasable(s, t) && s.trainers[t].pokemons != [] && Distinct(s.blocked)
    ensures var r := HandOn(s, t); Shrinks(s.blocked, r.blocked) && TargetsStay(s, r) && WakesInOrder(s, r)
  {
    hide Ahead, FirstWaiting, Distinct;
    var nest := s.trainers[t].pokemons[0].nest;
    var i := FirstWaiting(s, nest, 0);
    if i < |s.blocked| {
      WakesFirstWaiting(s, t, i);
      Leaves(s.blocked, i);
      OnlyOneWakes(s, t, i);
    } else {
      ShrinksNot(s.blocked);
    }
  }

  lemma ShrinksNot(q: seq<int>)
    requires Distinct(q)
    ensures Shrinks(q, q)
  {
  }

  lemma OnlyOneWakes(s: State, t: int, i: nat)
    requires Releasable(s, t) && s.trainers[t].pokemons != [] && Distinct(s.blocked)
    requires i == FirstWaiting(s, s.trainers[t].pokemons[0].nest, 0) < |s.blocked|
    ensures WakesInOrder(s, HandOn(s, t))
  {
    hide Ahead, Distinct, Shrinks;
    Leaves(s.blocked, i);
    var r := HandOn(s, t);
    forall b, c | b in s.blocked && c in s.blocked && s.trainers[b].target == s.trainers[c].target && b !in r.blocked && c in r.blocked
      ensures Ahead(s.blocked, b, c) {
      assert b == s.blocked[i];
      FirstIsAhead(s, s.trainers[t].pokemons[0].nest, c);
    }
  }

  lemma OrderTwice(s: State, u: State, r: State)
    requires Shrinks(s.blocked, u.blocked) && TargetsStay(s, u) && WakesInOrder(s, u)
    requires Shrinks(u.blocked, r.blocked) && TargetsStay(u, r) && WakesInOrder(u, r)
    requires u.trainers.Keys == s.trainers.Keys
    ensures Shrinks(s.blocked, r.blocked) && TargetsStay(s, r) && WakesInOrder(s, r)
  {
    hide Ahead, Distinct;
  }

  lemma {:induction false} HandOnAllOrder(s: State, t: int)
    requires Releasable(s, t) && Distinct(s.blocked)
    ensures var r := HandOnAll(s, t); Shrinks(s.blocked, r.blocked) && TargetsStay(s, r) && WakesInOrder(s, r) && r.trainers.Keys == s.trainers.Keys
    decreases |s.trainers[t].pokemons|
  {
    hide HandOn, Shrinks, TargetsStay, WakesInOrder, Distinct;
    if s.trainers[t].pokemons == [] {
      NobodyWakes(s);
    } else {
      HandOnOrder(s, t);
      HandOnKeys(s, t);
      ShrunkDistinct(s.blocked, HandOn(s, t).blocked);
      HandOnAllOrder(HandOn(s, t), t);
      OrderTwice(s, HandOn(s, t), HandOnAll(s, t));
    }
  }

  lemma HandOnKeys(s: State, t: int)
    requires Releasable(s, t) && s.trainers[t].pokemons != []
    ensures HandOn(s, t).trainers.Keys == s.trainers.Keys
  {
  }

  lemma ShrunkDistinct(q: seq<int>, q': seq<int>)
    requires Shrinks(q, q')
    ensures Distinct(q')
  {
  }

  lemma NobodyWakes(s: State)
    requires Present(s, s.blocked) && Distinct(s.blocked)
    ensures Shrinks(s.blocked, s.blocked) && TargetsStay(s, s) && WakesInOrder(s, s)
  {
  }

  lemma ReleaseOrder(s: State, t: int)
    requires Releasable(s, t) && Distinct(s.blocked)
    ensures Shrinks(s.blocked, Release(s, t).blocked) && WakesInOrder(s, Release(s, t))
  {
    hide Shrinks, HandOnAll, Ahead;
    HandOnAllOrder(s, t);
  }

  // ---------- one event ----------

  /** What an event does to the blocked queue: some leave, at most one joins, at the end. */
  ghost predicate QueueStep(q: seq<int>, q': seq<int>) {
    && (forall a, b :: a in q && a in q' && b in q && b in q' ==> (Ahead(q', a, b) <==> Ahead(q, a, b)))
    && (forall a, b :: a in q && a in q' && b !in q && b in q' ==> Ahead(q', a, b))
    && (forall a, b :: a !in q && a in q' && b !in q && b in q' ==> a == b)
  }

  lemma ShrinkSteps(q: seq<int>, q': seq<int>)
    requires Shrinks(q, q')
    ensures QueueStep(q, q')
  {
    hide Ahead, Distinct;
  }

  lemma JoinSteps(q: seq<int>, t: int)
    requires Distinct(q) && t !in q
    ensures QueueStep(q, q + [t])
  {
    hide Ahead, Distinct;
    forall a, b | a in q && b in q ensures Ahead(q + [t], a, t) && (Ahead(q + [t], a, b) <==> Ahead(q, a, b)) {
      Joins(q, t, a, b);
    }
  }

  /** A turn leaves the other trainers as they were. */
  predicate OthersWait(s: State, s': State, t: int) {
    s'.blocked == s.blocked && s'.trainers.Keys == s.trainers.Keys
    && forall b :: b in s.trainers && b != t ==> s'.trainers[b] == s.trainers[b]
  }

  lemma ServeOthers(s: State, t: int, req: Request, order: seq<Pokemon> -> seq<Pokemon>)
    requires Answerable(s, t, req)
    ensures OthersWait(s, Serve(s, t, req, order).0, t)
  {
  }

  lemma {:induction false} ServeUpToOthers(s: State, t: int, reqs: seq<Request>, quantum: nat, order: seq<Pokemon> -> seq<Pokemon>)
    requires t in s.trainers && Sensible(s, reqs) && quantum > 0
    ensures OthersWait(s, ServeUpTo(s, t, reqs, quantum, order).state, t)
    decreases quantum
  {
    hide Serve;
    ServeOthers(s, t, Next(reqs), order);
    ServeKeepsQueues(s, t, Next(reqs), order);
    var (s1, reply) := Serve(s, t, Next(reqs), order);
    if reply == NormalTurn && quantum > 1 { ServeUpToOthers(s1, t, Rest(reqs), quantum - 1, order); }
  }

  lemma {:induction false} ServeUntilDoneOthers(s: State, t: int, reqs: seq<Request>, order: seq<Pokemon> -> seq<Pokemon>)
    requires t in s.trainers && Sensible(s, reqs)
    ensures OthersWait(s, ServeUntilDone(s, t, reqs, order).state, t)
    decreases |reqs|
  {
    hide Serve;
    ServeOthers(s, t, Next(reqs), order);
    ServeKeepsQueues(s, t, Next(reqs), order);
    var (s1, reply) := Serve(s, t, Next(reqs), order);
    if reply == NormalTurn {
      HangupEnds(s, t, order);
      ServeUntilDoneOthers(s1, t, Rest(reqs), order);
    }
  }

  lemma SettleOrder(s: State, u: State, t: int, reply: Reply)
    requires OthersWait(s, u, t) && Distinct(s.blocked) && Present(s, s.blocked) && t in s.trainers && t !in s.blocked
    requires reply == Disconnected ==> Releasable(u, t)
    ensures QueueStep(s.blocked, Settle(u, t, reply).blocked) && WakesInOrder(s, Settle(u, t, reply))
  {
    hide Release, Ahead, Distinct, QueueStep, Shrinks;
    if reply == Disconnected {
      ReleaseOrder(u, t);
      ShrinkSteps(u.blocked, Release(u, t).blocked);
    } else if reply == NotFound {
      JoinSteps(s.blocked, t);
    } else {
      ShrinksNot(s.blocked);
      ShrinkSteps(s.blocked, s.blocked);
    }
  }

  lemma DropOrder(s: State, i: nat, s': State)
    requires Dropped(s, i, s') && Distinct(s.blocked) && Present(s, s.blocked)
    ensures QueueStep(s.blocked, s'.blocked) && WakesInOrder(s, s')
  {
    hide HandOnAll, Ahead, Distinct, QueueStep, Releasable;
    var u, t := s.(blocked := Without(s.blocked, i)), s.blocked[i];
    Leaves(s.blocked, i);
    ReleaseOrder(u, t);
    assert Shrinks(s.blocked, s'.blocked);
    ShrinkSteps(s.blocked, s'.blocked);
  }

  lemma BurstOrder(rule: Rule, s: State, reqs: seq<Request>, s': State, all: set<Pokemon>)
    requires Inv(s, [], all) && Step(rule, s, Burst(reqs), s') && s.ready != []
    ensures QueueStep(s.blocked, s'.blocked) && WakesInOrder(s, s')
  {
    hide Inv, ServeUpTo, ServeUntilDone, Serve, Settle, Ahead, Distinct, QueueStep, WakesInOrder, Releasable, Politely, FirstAimless, Distance;
    BlockedDistinct(s, [], all);
    if rule.robin {
      var u, t := s.(ready := s.ready[1..]), s.ready[0];
      ReadyNotBlocked(s, 0, all);
      ServeUpToOthers(u, t, reqs, rule.quantum, rule.order);
      var r := ServeUpTo(u, t, reqs, rule.quantum, rule.order);
      SettleOrder(s, r.state, t, r.reply);
    } else {
      var i :| ShortestFirst(s, reqs, rule.order, i, s') && Politely(s, reqs, i);
      var u, t := s.(ready := Without(s.ready, i)), s.ready[i];
      ReadyNotBlocked(s, i, all);
      if FirstAimless(s, 0) < |s.ready| {
        ServeOthers(u, t, Next(reqs), rule.order);
        var (s1, reply) := Serve(u, t, Next(reqs), rule.order);
        SettleOrder(s, s1, t, reply);
      } else {
        ServeUntilDoneOthers(u, t, reqs, rule.order);
        var r := ServeUntilDone(u, t, reqs, rule.order);
        SettleOrder(s, r.state, t, r.reply);
      }
    }
  }

  lemma ReadyNotBlocked(s: State, i: nat, all: set<Pokemon>)
    requires Inv(s, [], all) && i < |s.ready|
    ensures s.ready[i] in s.trainers && s.ready[i] !in s.blocked
  {
    hide EachOnce, NestsOk, WaitsOk;
    TakenKeeps(s, i, all);
    RunningIsAlone(s.(ready := Without(s.ready, i)), s.ready[i]);
  }

  lemma EventOrder(rule: Rule, s: State, e: Event, s': State, all: set<Pokemon>)
    requires Inv(s, [], all) && Step(rule, s, e, s')
    ensures QueueStep(s.blocked, s'.blocked) && WakesInOrder(s, s')
  {
    hide Inv, RoundRobin, ShortestFirst, Dropped, Ahead, Distinct, QueueStep, Politely;
    BlockedDistinct(s, [], all);
    ShrinksNot(s.blocked);
    ShrinkSteps(s.blocked, s.blocked);
    match e {
      case Arrival(t) =>
      case Drop(i) => DropOrder(s, i, s');
      case Burst(reqs) =>
        if s.ready == [] { IdleBurst(rule, s, reqs, s'); } else { BurstOrder(rule, s, reqs, s', all); }
    }
  }

  lemma IdleBurst(rule: Rule, s: State, reqs: seq<Request>, s': State)
    requires Step(rule, s, Burst(reqs), s') && s.ready == []
    ensures s' == s
  {
  }

  // ---------- whole runs ----------

  /** The state since which the trainer has been blocked. */
  function Since(states: seq<State>, i: nat, a: int): (k: nat)
    requires i < |states| && a in states[i].blocked
    ensures k <= i && forall j :: k <= j <= i ==> a in states[j].blocked
    ensures k > 0 ==> a !in states[k - 1].blocked
  {
    if i == 0 || a !in states[i - 1].blocked then i else Since(states, i - 1, a)
  }

  /** In a run that starts with nobody blocked, under either rule, the queue is in the order in which its
      trainers were blocked. */
  lemma {:induction false} EarlierIsAhead(rule: Rule, states: seq<State>, events: seq<Event>, all: set<Pokemon>, i: nat, a: int, b: int)
    requires IsRun(rule, states, events) && Inv(states[0], [], all) && Rearranges(rule.order) && states[0].blocked == []
    requires i < |states| && a in states[i].blocked && b in states[i].blocked && a != b
    ensures Ahead(states[i].blocked, a, b) <==> Since(states, i, a) < Since(states, i, b)
  {
    hide Inv, Step, Rearranges, Ahead;
    if i > 0 {
      var n := i - 1;
      var q := states[n].blocked;
      RunsKeepEverything(rule, states, events, all, n);
      RunsKeepEverything(rule, states, events, all, i);
      assert Step(rule, states[n], events[n], states[n + 1]);
      EventOrder(rule, states[n], events[n], states[i], all);
      BlockedDistinct(states[i], [], all);
      AheadOneWay(states[i].blocked, a, b);
      if a in q && b in q { EarlierIsAhead(rule, states, events, all, n, a, b); }
    }
  }

  /** In such a run, whatever happens: of two trainers that wait at one nest, the one that is woken first
      is the one that has been blocked longer. */
  lemma LongestBlockedWakesFirst(rule: Rule, states: seq<State>, events: seq<Event>, all: set<Pokemon>, i: nat, b: int, c: int)
    requires IsRun(rule, states, events) && Inv(states[0], [], all) && Rearranges(rule.order) && states[0].blocked == []
    requires i < |events| && b in states[i].blocked && c in states[i].blocked && b in states[i].trainers && c in states[i].trainers
    requires states[i].trainers[b].target == states[i].trainers[c].target
    requires b in states[i + 1].trainers && b !in states[i + 1].blocked && c in states[i + 1].blocked
    ensures Since(states, i, b) < Since(states, i, c)
  {
    hide Inv, Step, Rearranges, Ahead, QueueStep;
    RunsKeepEverything(rule, states, events, all, i);
    assert Step(rule, states[i], events[i], states[i + 1]);
    EventOrder(rule, states[i], events[i], states[i + 1], all);
    EarlierIsAhead(rule, states, events, all, i, b, c);
  }
}
