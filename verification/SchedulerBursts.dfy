/** What one burst, one arrival or one departure keeps. The requests of a turn are served one by one with
    the trainer running, in neither queue; after the turn it is settled: in the ready queue, in the blocked
    queue, where it waits at a nest that was found empty, or gone, with all its pokemons handed on. */
module SchedulerBursts {
  import opened Schedulers
  import opened SchedulerSafety

  // ---------- the trainers' side of the protocol ----------

  /** Trainers ask for the nest they located last, as long as they have not captured since. */
  predicate Faithful(reqs: seq<Request>, target: char8) {
    reqs == [] ||
    match reqs[0]
    case Locate(n) => Faithful(reqs[1..], n)
    case Catch(n) => n == target && Faithful(reqs[1..], NOBODY)
    case _ => Faithful(reqs[1..], target)
  }

  predicate TurnWaits(s: State, t: int, reply: Reply) {
    reply == NotFound ==> t in s.trainers && s.trainers[t].target in s.nests && s.nests[s.trainers[t].target].pokemons == []
  }

  lemma ServeWaits(s: State, t: int, reqs: seq<Request>, order: seq<Pokemon> -> seq<Pokemon>)
    requires t in s.trainers && Sensible(s, reqs) && Rearranges(order) && Faithful(reqs, s.trainers[t].target)
    ensures Answerable(s, t, Next(reqs))
    ensures var (s', reply) := Serve(s, t, Next(reqs), order);
      && TurnWaits(s', t, reply)
      && (reply == NormalTurn ==> t in s'.trainers && Sensible(s', Rest(reqs)) && Faithful(Rest(reqs), s'.trainers[t].target))
  {
    ServeKeepsQueues(s, t, Next(reqs), order);
    if Next(reqs).Catch? { CatchMoves(s, t, Next(reqs).nest, order); }
  }

  lemma {:induction false} ServeUpToKeeps(s: State, t: int, reqs: seq<Request>, quantum: nat, order: seq<Pokemon> -> seq<Pokemon>, all: set<Pokemon>)
    requires Inv(s, [t], all) && t in s.trainers && Sensible(s, reqs) && quantum > 0 && Rearranges(order)
    requires Faithful(reqs, s.trainers[t].target)
    ensures var r := ServeUpTo(s, t, reqs, quantum, order);
      Inv(r.state, [t], all) && TurnWaits(r.state, t, r.reply) && r.state.ready == s.ready
    decreases quantum
  {
    hide Inv, Serve, Sensible, Faithful, Rearranges;
    ServeWaits(s, t, reqs, order);
    ServeKeepsQueues(s, t, Next(reqs), order);
    ServeKeeps(s, t, Next(reqs), order, all);
    var (s1, reply) := Serve(s, t, Next(reqs), order);
    if reply == NormalTurn && quantum > 1 {
      ServeUpToKeeps(s1, t, Rest(reqs), quantum - 1, order, all);
    }
  }

  lemma {:induction false} ServeUntilDoneKeeps(s: State, t: int, reqs: seq<Request>, order: seq<Pokemon> -> seq<Pokemon>, all: set<Pokemon>)
    requires Inv(s, [t], all) && t in s.trainers && Sensible(s, reqs) && Rearranges(order)
    requires Faithful(reqs, s.trainers[t].target)
    ensures var r := ServeUntilDone(s, t, reqs, order);
      Inv(r.state, [t], all) && TurnWaits(r.state, t, r.reply)
    decreases |reqs|
  {
    hide Inv, Sensible, Faithful, Rearranges;
    ServeWaits(s, t, reqs, order);
    ServeKeeps(s, t, Next(reqs), order, all);
    var (s1, reply) := Serve(s, t, Next(reqs), order);
    if reply == NormalTurn {
      ServeUntilDoneKeeps(s1, t, Rest(reqs), order, all);
    }
  }

  /** A turn never looks past its quantum. */
  lemma {:induction false} OnlyQuantumServed(s: State, t: int, reqs: seq<Request>, quantum: nat, order: seq<Pokemon> -> seq<Pokemon>)
    requires t in s.trainers && Sensible(s, reqs) && 0 < quantum <= |reqs|
    ensures Sensible(s, reqs[..quantum])
    ensures ServeUpTo(s, t, reqs[..quantum], quantum, order) == ServeUpTo(s, t, reqs, quantum, order)
    decreases quantum
  {
    ServeKeepsQueues(s, t, reqs[0], order);
    hide Serve;
    var (s1, reply) := Serve(s, t, reqs[0], order);
    if reply == NormalTurn && quantum > 1 {
      assert reqs[..quantum][1..] == reqs[1..][..quantum - 1];
      OnlyQuantumServed(s1, t, reqs[1..], quantum - 1, order);
    }
  }

  // ---------- steps of the scheduler ----------

  /** Only the queues differ, and they hold the same trainers. */
  lemma RequeuedKeeps(s: State, s': State, running: seq<int>, running': seq<int>, all: set<Pokemon>)
    requires Inv(s, running, all) && s'.trainers == s.trainers && s'.nests == s.nests
    requires multiset(s'.ready + s'.blocked + running') == multiset(s.ready + s.blocked + running)
    requires forall i :: 0 <= i < |s'.blocked| ==> WaitsAtEmpty(s, s'.blocked[i])
    ensures Inv(s', running', all)
  {
    QueuesOnly(s, s');
    hide EachOnce, NestsOk;
    SameKeepsOnce(s, s', all);
  }

  lemma QueuesOnly(s: State, s': State)
    requires s'.trainers == s.trainers && s'.nests == s.nests
    ensures SameBags(s, s') && (NestsOk(s) ==> NestsOk(s'))
  {
  }

  lemma BlockedWaits(s: State, running: seq<int>, all: set<Pokemon>)
    requires Inv(s, running, all)
    ensures forall i :: 0 <= i < |s.blocked| ==> WaitsAtEmpty(s, s.blocked[i])
  {
  }

  lemma TakenKeeps(s: State, i: nat, all: set<Pokemon>)
    requires Inv(s, [], all) && i < |s.ready|
    ensures Inv(s.(ready := Without(s.ready, i)), [s.ready[i]], all) && s.ready[i] in s.trainers
  {
    PartitionMembers(s, []);
    hide Inv, WaitsAtEmpty;
    var s' := s.(ready := Without(s.ready, i));
    WithoutCounts(s.ready, i);
    assert multiset(s'.ready + s'.blocked + [s.ready[i]]) == multiset(s'.ready) + multiset(s'.blocked) + multiset{s.ready[i]};
    assert multiset(s.ready + s.blocked + []) == multiset(s.ready) + multiset(s.blocked);
    BlockedWaits(s, [], all);
    RequeuedKeeps(s, s', [], [s.ready[i]], all);
  }

  lemma PushedKeeps(s: State, t: int, all: set<Pokemon>)
    requires Inv(s, [t], all)
    ensures Inv(s.(ready := s.ready + [t]), [], all)
  {
    hide Inv, WaitsAtEmpty;
    var r := s.(ready := s.ready + [t]);
    assert multiset(s.ready + s.blocked + [t]) == multiset(s.ready) + multiset(s.blocked) + multiset{t};
    assert multiset(r.ready + r.blocked + []) == multiset(s.ready) + multiset{t} + multiset(s.blocked);
    BlockedWaits(s, [t], all);
    RequeuedKeeps(s, r, [t], [], all);
  }

  lemma BlockedKeeps(s: State, t: int, all: set<Pokemon>)
    requires Inv(s, [t], all) && WaitsAtEmpty(s, t)
    ensures Inv(s.(blocked := s.blocked + [t]), [], all)
  {
    hide Inv, WaitsAtEmpty;
    var b := s.(blocked := s.blocked + [t]);
    assert multiset(s.ready + s.blocked + [t]) == multiset(s.ready) + multiset(s.blocked) + multiset{t};
    assert multiset(b.ready + b.blocked + []) == multiset(s.ready) + multiset(s.blocked) + multiset{t};
    BlockedWaits(s, [t], all);
    RequeuedKeeps(s, b, [t], [], all);
  }

  lemma SettleKeeps(s: State, t: int, reply: Reply, all: set<Pokemon>)
    requires Inv(s, [t], all) && TurnWaits(s, t, reply)
    ensures Releasable(s, t) && Inv(Settle(s, t, reply), [], all)
  {
    hide Inv;
    InvReleasable(s, t, all);
    match reply {
      case Disconnected => ReleaseKeeps(s, t, all);
      case NotFound =>
        assert WaitsAtEmpty(s, t);
        BlockedKeeps(s, t, all);
      case _ => PushedKeeps(s, t, all);
    }
  }

  predicate Politely(s: State, reqs: seq<Request>, i: int) {
    0 <= i < |s.ready| && s.ready[i] in s.trainers ==> Faithful(reqs, s.trainers[s.ready[i]].target)
  }

  lemma HangupEnds(s: State, t: int, order: seq<Pokemon> -> seq<Pokemon>)
    requires t in s.trainers
    ensures Serve(s, t, Hangup, order).1 == Disconnected
  {
  }

  /** What each ready trainer sends keeps to the protocol. */
  predicate AllPolite(s: State, reqs: map<int, seq<Request>>) {
    forall i :: 0 <= i < |s.ready| ==>
      s.ready[i] in reqs && Sensible(s, reqs[s.ready[i]]) && Politely(s, reqs[s.ready[i]], i)
  }

  lemma RoundRobinKeeps(s: State, reqs: seq<Request>, quantum: nat, order: seq<Pokemon> -> seq<Pokemon>, s': State, all: set<Pokemon>)
    requires Inv(s, [], all) && Rearranges(order) && RoundRobin(s, reqs, quantum, order, s') && Politely(s, reqs, 0)
    ensures Inv(s', [], all)
  {
    hide Inv, Rearranges, ServeUpTo, Settle, Faithful;
    if s.ready != [] {
      TakenKeeps(s, 0, all);
      assert Without(s.ready, 0) == s.ready[1..];
      var u := s.(ready := s.ready[1..]);
      ServeUpToKeeps(u, s.ready[0], reqs, quantum, order, all);
      var r := ServeUpTo(u, s.ready[0], reqs, quantum, order);
      SettleKeeps(r.state, s.ready[0], r.reply, all);
    }
  }

  lemma ShortestFirstKeeps(s: State, reqs: seq<Request>, order: seq<Pokemon> -> seq<Pokemon>, i: int, s': State, all: set<Pokemon>)
    requires Inv(s, [], all) && Rearranges(order) && ShortestFirst(s, reqs, order, i, s') && Politely(s, reqs, i)
    ensures Inv(s', [], all)
  {
    hide Inv, Rearranges, Serve, ServeUntilDone, Settle, Faithful, FirstAimless, Distance;
    if s.ready != [] {
      TakenKeeps(s, i, all);
      var t := s.ready[i];
      var u := s.(ready := Without(s.ready, i));
      if FirstAimless(s, 0) < |s.ready| {
        ServeWaits(u, t, reqs, order);
        ServeKeeps(u, t, Next(reqs), order, all);
        var (s1, reply) := Serve(u, t, Next(reqs), order);
        SettleKeeps(s1, t, reply, all);
      } else {
        ServeUntilDoneKeeps(u, t, reqs, order, all);
        var r := ServeUntilDone(u, t, reqs, order);
        SettleKeeps(r.state, t, r.reply, all);
      }
    }
  }

  lemma NewKey(trainers: map<int, Trainer>, t: int)
    requires t !in trainers
    ensures multiset(trainers[t := ARRIVAL].Keys) == multiset(trainers.Keys) + multiset{t}
  {
    assert trainers[t := ARRIVAL].Keys == trainers.Keys + {t};
  }

  lemma ArrivedPartition(s: State, t: int)
    requires Partitioned(s, []) && t !in s.trainers
    ensures Partitioned(Arrived(s, t), [])
  {
    var s' := Arrived(s, t);
    NewKey(s.trainers, t);
    assert multiset(s.ready + s.blocked + []) == multiset(s.ready) + multiset(s.blocked);
    assert multiset(s'.ready + s'.blocked + []) == multiset(s.ready) + multiset{t} + multiset(s.blocked);
  }

  lemma ArrivedWaits(s: State, t: int)
    requires WaitsOk(s) && t !in s.trainers
    ensures WaitsOk(Arrived(s, t))
  {
    var s' := Arrived(s, t);
    forall i | 0 <= i < |s'.blocked| ensures WaitsAtEmpty(s', s'.blocked[i]) {
      assert WaitsAtEmpty(s, s.blocked[i]);
    }
  }

  lemma ArrivedKeeps(s: State, t: int, all: set<Pokemon>)
    requires Inv(s, [], all) && t !in s.trainers
    ensures Inv(Arrived(s, t), [], all)
  {
    assert SameBags(s, Arrived(s, t));
    ArrivedPartition(s, t);
    ArrivedWaits(s, t);
    hide EachOnce, Partitioned, WaitsOk;
    SameKeepsOnce(s, Arrived(s, t), all);
  }

  lemma DropKeeps(s: State, i: nat, all: set<Pokemon>)
    requires Inv(s, [], all) && i < |s.blocked|
    ensures Inv(s.(blocked := Without(s.blocked, i)), [s.blocked[i]], all)
  {
    hide Inv, WaitsAtEmpty;
    var t := s.blocked[i];
    var u := s.(blocked := Without(s.blocked, i));
    WithoutCounts(s.blocked, i);
    assert multiset(u.ready + u.blocked + [t]) == multiset(u.ready) + multiset(u.blocked) + multiset{t};
    assert multiset(s.ready + s.blocked + []) == multiset(s.ready) + multiset(s.blocked);
    BlockedWaits(s, [], all);
    forall j | 0 <= j < |u.blocked| ensures WaitsAtEmpty(s, u.blocked[j]) {
      assert u.blocked[j] == s.blocked[if j < i then j else j + 1];
    }
    RequeuedKeeps(s, u, [], [t], all);
  }

  lemma DroppedKeeps(s: State, i: nat, s': State, all: set<Pokemon>)
    requires Inv(s, [], all) && Dropped(s, i, s')
    ensures Inv(s', [], all)
  {
    hide Inv, Release, Releasable;
    DropKeeps(s, i, all);
    ReleaseKeeps(s.(blocked := Without(s.blocked, i)), s.blocked[i], all);
  }
}
