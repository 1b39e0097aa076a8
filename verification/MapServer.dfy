/** A map: two queues, the trainers and the nests, changed in place by bursts and departures. */
module MapServers {
  import opened Schedulers
  import opened SchedulerSafety
  import opened SchedulerBursts
  import opened SchedulerRuns

  class MapServer {
    const quantum: nat
    const order: seq<Pokemon> -> seq<Pokemon>
    ghost const all: set<Pokemon>
    var trainers: map<int, Trainer>
    var nests: map<char8, Nest>
    var ready: seq<int>
    var blocked: seq<int>

    function Now(): State
      reads this
    {
      State(trainers, nests, ready, blocked)
    }

    ghost predicate Valid()
      reads this
    {
      quantum > 0 && Rearranges(order) && Inv(Now(), [], all)
    }

    /** A map whose nests are loaded and where nobody plays yet. */
    constructor (nests: map<char8, Nest>, quantum: nat, order: seq<Pokemon> -> seq<Pokemon>, ghost all: set<Pokemon>)
      requires quantum > 0 && Rearranges(order) && NestsOk(State(map[], nests, [], []))
      requires forall n, i, j :: n in nests && 0 <= i < j < |nests[n].pokemons| ==> nests[n].pokemons[i] != nests[n].pokemons[j]
      requires forall p :: p in all <==> p.nest in nests && p in nests[p.nest].pokemons
      ensures Valid() && Now() == State(map[], nests, [], []) && this.all == all
    {
      this.quantum, this.order, this.all, this.nests := quantum, order, all, nests;
      trainers, ready, blocked := map[], [], [];
      new;
      StartsInOrder(Now(), all);
    }

    // ---------- one request ----------

    method Attend(t: int, req: Request) returns (reply: Reply)
      requires Answerable(Now(), t, req)
      modifies this`trainers, this`nests
      ensures (Now(), reply) == Serve(old(Now()), t, req, order)
    {
      var trainer := trainers[t];
      match req {
        case Locate(n) =>
          trainers := trainers[t := trainer.(target := n)];
          reply := NormalTurn;
        case Advance(d) =>
          if d == MOVE_UP {
            trainer := trainer.(y := trainer.y - 1);
          } else if d == MOVE_DOWN {
            trainer := trainer.(y := trainer.y + 1);
          } else if d == MOVE_RIGHT {
            trainer := trainer.(x := trainer.x + 1);
          } else if d == MOVE_LEFT {
            trainer := trainer.(x := trainer.x - 1);
          }
          trainers := trainers[t := trainer];
          reply := NormalTurn;
        case Catch(n) =>
          var sorted := order(nests[n].pokemons);
          if sorted == [] {
            nests := nests[n := nests[n].(pokemons := [])];
            return NotFound;
          }
          var nest := nests[n].(pokemons := sorted[1..]);
          trainer := trainer.(pokemons := trainer.pokemons + [sorted[0]]);
          nest := nest.(count := AsChar(nest.count - 1));
          trainer := trainer.(target := NOBODY);
          nests := nests[n := nest];
          trainers := trainers[t := trainer];
          reply := Caught;
        case Other => reply := NormalTurn;
        case Hangup => reply := Disconnected;
      }
    }

    // ---------- release ----------

    /** Scans the blocked queue for the first trainer that waits for the nest. */
    method FindWaiting(nest: char8) returns (i: nat)
      requires Present(Now(), blocked)
      ensures i == FirstWaiting(Now(), nest, 0)
    {
      i := 0;
      while i < |blocked|
        invariant i <= |blocked| && FirstWaiting(Now(), nest, 0) == FirstWaiting(Now(), nest, i)
      {
        if trainers[blocked[i]].target == nest { break; }
        i := i + 1;
      }
    }

    /** The trainer at `i` of the blocked queue goes to the end of the ready queue. */
    method Unblock(i: nat)
      requires i < |blocked|
      modifies this`ready, this`blocked
      ensures ready == old(ready) + [old(blocked[i])] && blocked == Without(old(blocked), i)
    {
      ready := ready + [blocked[i]];
      blocked := blocked[..i] + blocked[i + 1..];
    }

    method HandOnFirst(t: int)
      requires Releasable(Now(), t) && trainers[t].pokemons != []
      modifies this`trainers, this`nests, this`ready, this`blocked
      ensures Now() == HandOn(old(Now()), t)
    {
      var p := trainers[t].pokemons[0];
      var i := FindWaiting(p.nest);
      trainers := trainers[t := trainers[t].(pokemons := trainers[t].pokemons[1..])];
      if i < |blocked| {
        var b := blocked[i];
        trainers := trainers[b := trainers[b].(pokemons := trainers[b].pokemons + [p])];
        trainers := trainers[b := trainers[b].(target := NOBODY)];
        Unblock(i);
      } else {
        nests := nests[p.nest := nests[p.nest].(pokemons := nests[p.nest].pokemons + [p])];
        nests := nests[p.nest := nests[p.nest].(count := AsChar(nests[p.nest].count + 1))];
      }
    }

    method ReleaseResources(t: int)
      requires Releasable(Now(), t)
      modifies this`trainers, this`nests, this`ready, this`blocked
      ensures Now() == Release(old(Now()), t)
    {
      hide HandOn;
      while trainers[t].pokemons != []
        invariant Releasable(Now(), t) && HandOnAll(Now(), t) == HandOnAll(old(Now()), t)
        decreases |trainers[t].pokemons|
      {
        HandOnFirst(t);
      }
      trainers := trainers - {t};
    }

    /** What becomes of the trainer after its turn. */
    method Finish(t: int, reply: Reply)
      requires Inv(Now(), [t], all) && TurnWaits(Now(), t, reply)
      modifies this`trainers, this`nests, this`ready, this`blocked
      ensures Releasable(old(Now()), t) && Now() == Settle(old(Now()), t, reply)
    {
      hide Inv, Release, Releasable;
      InvReleasable(Now(), t, all);
      match reply {
        case Disconnected => ReleaseResources(t);
        case NotFound => blocked := blocked + [t];
        case _ => ready := ready + [t];
      }
    }

    // ---------- bursts ----------

    /** The quantum loop of the round robin. */
    method ServeQuantum(t: int, reqs: seq<Request>) returns (reply: Reply)
      requires t in trainers && Sensible(Now(), reqs) && quantum > 0
      modifies this`trainers, this`nests
      ensures var r := ServeUpTo(old(Now()), t, reqs, quantum, order); Now() == r.state && reply == r.reply
    {
      hide Serve;
      ghost var r := ServeUpTo(Now(), t, reqs, quantum, order);
      var rest := reqs;
      reply := NormalTurn;
      var q := 0;
      while q < quantum && reply == NormalTurn
        invariant q <= quantum && t in trainers && Sensible(Now(), rest)
        invariant reply == NormalTurn && q < quantum ==>
          ServeUpTo(Now(), t, rest, quantum - q, order).state == r.state && ServeUpTo(Now(), t, rest, quantum - q, order).reply == r.reply
        invariant !(reply == NormalTurn && q < quantum) ==> Now() == r.state && reply == r.reply
      {
        ServeKeepsQueues(Now(), t, Next(rest), order);
        reply := Attend(t, Next(rest));
        rest := Rest(rest);
        q := q + 1;
      }
    }

    method RunRoundRobin(reqs: seq<Request>)
      requires Valid() && Sensible(Now(), reqs) && Politely(Now(), reqs, 0)
      modifies this`trainers, this`nests, this`ready, this`blocked
      ensures RoundRobin(old(Now()), reqs, quantum, order, Now()) && Valid()
    {
      hide Inv, ServeUpTo, Settle, Rearranges, Faithful, Releasable;
      ghost var s := Now();
      if ready == [] { return; }
      var t := ready[0];
      TakenKeeps(s, 0, all);
      ready := ready[1..];
      assert ready == Without(s.ready, 0);
      ServeUpToKeeps(Now(), t, reqs, quantum, order, all);
      var reply := ServeQuantum(t, reqs);
      Finish(t, reply);
      RoundRobinKeeps(s, reqs, quantum, order, Now(), all);
    }

    method FindAimless() returns (i: nat)
      requires Present(Now(), ready)
      ensures i == FirstAimless(Now(), 0)
    {
      i := 0;
      while i < |ready|
        invariant i <= |ready| && FirstAimless(Now(), 0) == FirstAimless(Now(), i)
      {
        if trainers[ready[i]].target == NOBODY { break; }
        i := i + 1;
      }
    }

    /** The head of the queue sorted by distance. */
    method FindNearest() returns (i: nat)
      requires AllAimed(Now()) && ready != []
      ensures Nearest(Now(), i)
    {
      i := 0;
      var j := 1;
      while j < |ready|
        invariant 0 <= i < j <= |ready|
        invariant forall k :: 0 <= k < j ==> Distance(Now(), ready[i]) <= Distance(Now(), ready[k])
      {
        if Distance(Now(), ready[j]) < Distance(Now(), ready[i]) { i := j; }
        j := j + 1;
      }
    }

    /** The loop that serves a trainer until something other than a normal turn happens. */
    method ServeToEnd(t: int, reqs: seq<Request>) returns (reply: Reply)
      requires t in trainers && Sensible(Now(), reqs)
      modifies this`trainers, this`nests
      ensures var r := ServeUntilDone(old(Now()), t, reqs, order); Now() == r.state && reply == r.reply
    {
      hide Serve;
      ghost var r := ServeUntilDone(Now(), t, reqs, order);
      var rest := reqs;
      ServeKeepsQueues(Now(), t, Next(rest), order);
      HangupEnds(Now(), t, order);
      reply := Attend(t, Next(rest));
      rest := Rest(rest);
      while reply == NormalTurn
        invariant t in trainers && Sensible(Now(), rest)
        invariant reply == NormalTurn ==>
          ServeUntilDone(Now(), t, rest, order).state == r.state && ServeUntilDone(Now(), t, rest, order).reply == r.reply
        invariant reply != NormalTurn ==> Now() == r.state && reply == r.reply
        decreases reply == NormalTurn, |rest|
      {
        ServeKeepsQueues(Now(), t, Next(rest), order);
        HangupEnds(Now(), t, order);
        reply := Attend(t, Next(rest));
        rest := Rest(rest);
      }
    }

    /** `reqs` is what each ready trainer would send; one of them is served. */
    method RunShortestFirst(reqs: map<int, seq<Request>>) returns (ghost i: int)
      requires Valid() && AllPolite(Now(), reqs)
      modifies this`trainers, this`nests, this`ready, this`blocked
      ensures if old(ready) == [] then Now() == old(Now())
              else 0 <= i < |old(ready)| && ShortestFirst(old(Now()), reqs[old(ready)[i]], order, i, Now())
      ensures Valid()
    {
      hide Inv, ServeUntilDone, Serve, Settle, Rearranges, Faithful, Releasable, Distance, FirstAimless;
      ghost var s := Now();
      i := 0;
      if ready == [] { return; }
      AimedUnlessAimless(s, all);
      var a := FindAimless();
      if a < |ready| {
        i := a;
        var t := ready[a];
        TakenKeeps(s, a, all);
        ready := Without(ready, a);
        assert Politely(s, reqs[t], a);
        ServeWaits(Now(), t, reqs[t], order);
        ServeKeeps(Now(), t, Next(reqs[t]), order, all);
        var reply := Attend(t, Next(reqs[t]));
        Finish(t, reply);
      } else {
        var n := FindNearest();
        i := n;
        var t := ready[n];
        TakenKeeps(s, n, all);
        ready := Without(ready, n);
        assert Politely(s, reqs[t], n);
        ServeUntilDoneKeeps(Now(), t, reqs[t], order, all);
        var reply := ServeToEnd(t, reqs[t]);
        Finish(t, reply);
      }
      ShortestFirstKeeps(s, reqs[s.ready[i]], order, i, Now(), all);
    }

    // ---------- arrivals and departures ----------

    method Arrive(t: int)
      requires Valid() && t !in trainers
      modifies this`trainers, this`ready
      ensures Now() == Arrived(old(Now()), t) && Valid()
    {
      hide Inv, Rearranges;
      ArrivedKeeps(Now(), t, all);
      trainers := trainers[t := ARRIVAL];
      ready := ready + [t];
    }

    /** The position of a trainer in the blocked queue, or the queue's length. */
    method FindBlocked(t: int) returns (i: nat)
      ensures i <= |blocked| && (i < |blocked| ==> blocked[i] == t) && (i == |blocked| ==> t !in blocked)
    {
      i := 0;
      while i < |blocked|
        invariant i <= |blocked| && t !in blocked[..i]
      {
        if blocked[i] == t { break; }
        i := i + 1;
      }
    }

    /** The connection of a trainer closes while the scheduler is not serving it: only a blocked one is
        noticed. */
    method Disconnect(t: int) returns (ghost i: nat)
      requires Valid()
      modifies this`trainers, this`nests, this`ready, this`blocked
      ensures if t in old(blocked) then i < |old(blocked)| && old(blocked)[i] == t && Dropped(old(Now()), i, Now()) else Now() == old(Now())
      ensures Valid()
    {
      hide Inv, Rearranges, Release, Releasable;
      ghost var s := Now();
      var at := FindBlocked(t);
      i := at;
      if at == |blocked| { return; }
      DroppedReleasable(s, at, all);
      blocked := Without(blocked, at);
      ReleaseResources(t);
      DroppedKeeps(s, at, Now(), all);
    }
  }

  /** When no ready trainer lacks a target, every one has a nest to go to. */
  lemma AimedUnlessAimless(s: State, all: set<Pokemon>)
    requires Inv(s, [], all)
    ensures Present(s, s.ready) && (FirstAimless(s, 0) == |s.ready| ==> AllAimed(s))
  {
    PartitionMembers(s, []);
    if FirstAimless(s, 0) == |s.ready| {
      forall j | 0 <= j < |s.ready| ensures s.trainers[s.ready[j]].target in s.nests {
        AimedTrainer(s, s.ready[j]);
      }
    }
  }

  lemma AimedTrainer(s: State, t: int)
    requires NestsOk(s) && t in s.trainers && s.trainers[t].target != NOBODY
    ensures s.trainers[t].target in s.nests
  {
  }

  lemma DroppedReleasable(s: State, i: nat, all: set<Pokemon>)
    requires Inv(s, [], all) && i < |s.blocked|
    ensures Releasable(s.(blocked := Without(s.blocked, i)), s.blocked[i])
  {
    var t := s.blocked[i];
    var u := s.(blocked := Without(s.blocked, i));
    DropKeeps(s, i, all);
    InvReleasable(u, t, all);
  }
}
