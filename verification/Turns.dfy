/** How a turn ends, read off its requests and the nests, and where the trainer is afterwards. */
module Turns {
  import opened Schedulers
  import opened SchedulerSafety
  import W = Walks

  // ---------- the requests of a turn ----------

  /** A stream that runs dry is a connection closed. */
  function Asked(reqs: seq<Request>, k: nat): Request {
    if k < |reqs| then reqs[k] else Hangup
  }

  predicate Ends(req: Request) {
    req.Catch? || req.Hangup?
  }

  /** How many requests a turn of at most `most` serves: up to the first that asks for a pokemon or ends
      the connection. */
  function TurnLength(reqs: seq<Request>, most: nat): (n: nat)
    requires most > 0
    ensures 1 <= n <= most && (forall k :: 0 <= k < n - 1 ==> !Ends(Asked(reqs, k))) && (n < most ==> Ends(Asked(reqs, n - 1)))
    decreases most
  {
    if Ends(Next(reqs)) || most == 1 then 1
    else
      var n := 1 + TurnLength(Rest(reqs), most - 1);
      assert forall k {:trigger Asked(reqs, k)} :: 0 < k ==> Asked(reqs, k) == Asked(Rest(reqs), k - 1);
      n
  }

  function LastAsked(reqs: seq<Request>, most: nat): Request
    requires most > 0
  {
    Asked(reqs, TurnLength(reqs, most) - 1)
  }

  lemma LastAskedRest(reqs: seq<Request>, most: nat)
    requires most > 1 && !Ends(Next(reqs))
    ensures LastAsked(reqs, most) == LastAsked(Rest(reqs), most - 1)
  {
    assert forall k {:trigger Asked(reqs, k)} :: 0 < k ==> Asked(reqs, k) == Asked(Rest(reqs), k - 1);
  }

  /** What the map answers, given the nests. */
  function Answer(s: State, req: Request): Reply
    requires req.Catch? ==> req.nest in s.nests
  {
    match req
    case Catch(n) => if s.nests[n].pokemons == [] then NotFound else Caught
    case Hangup => Disconnected
    case _ => NormalTurn
  }

  /** A request is answered so, and changes no other trainer; only a capture changes a nest. */
  lemma ServeAnswers(s: State, t: int, req: Request, order: seq<Pokemon> -> seq<Pokemon>)
    requires Answerable(s, t, req) && Rearranges(order)
    ensures var (s', reply) := Serve(s, t, req, order);
      && reply == Answer(s, req)
      && s'.ready == s.ready && s'.blocked == s.blocked && s'.trainers.Keys == s.trainers.Keys && s'.nests.Keys == s.nests.Keys
      && (forall b :: b in s.trainers && b != t ==> s'.trainers[b] == s.trainers[b])
      && (reply != Caught ==> s'.nests == s.nests && s'.trainers[t].pokemons == s.trainers[t].pokemons)
      && (req.Locate? ==> s'.trainers[t] == s.trainers[t].(target := req.nest))
      && (reply == Caught ==> s'.trainers[t].target == NOBODY && |s'.trainers[t].pokemons| == |s.trainers[t].pokemons| + 1)
      && (req.Catch? || req.Other? || req.Hangup? ==> s'.trainers[t].x == s.trainers[t].x && s'.trainers[t].y == s.trainers[t].y)
  {
    if req.Catch? {
      CatchMoves(s, t, req.nest, order);
      Rearranged(order, s.nests[req.nest].pokemons);
    }
  }

  /** A request to advance moves the map's trainer to where the walk says. */
  lemma AdvanceWalks(s: State, t: int, d: int, order: seq<Pokemon> -> seq<Pokemon>, at: W.Coor)
    requires t in s.trainers && W.InStep(s.trainers[t], at) && W.NoWrap(at, d)
    ensures W.InStep(Serve(s, t, Advance(d), order).0.trainers[t], W.Step(at, d))
  {
  }

  // ---------- the turn ----------

  /** A turn of at most `most` requests. */
  ghost predicate TurnIs(s: State, t: int, reqs: seq<Request>, most: nat, r: Turn)
    requires most > 0 && Sensible(s, reqs)
  {
    && r.served == TurnLength(reqs, most) && r.reply == (LastSensible(s, reqs, most); Answer(s, LastAsked(reqs, most)))
    && r.state.ready == s.ready && r.state.blocked == s.blocked && r.state.trainers.Keys == s.trainers.Keys
    && (forall b :: b in s.trainers && b != t ==> r.state.trainers[b] == s.trainers[b])
    && (r.reply != Caught ==> r.state.nests == s.nests)
  }

  lemma LastSensible(s: State, reqs: seq<Request>, most: nat)
    requires most > 0 && Sensible(s, reqs)
    ensures LastAsked(reqs, most).Catch? ==> LastAsked(reqs, most).nest in s.nests
  {
  }

  lemma RestSensible(s: State, s1: State, reqs: seq<Request>)
    requires Sensible(s, reqs) && s1.nests == s.nests
    ensures Sensible(s1, Rest(reqs))
  {
  }

  lemma NextAnswerable(s: State, t: int, reqs: seq<Request>)
    requires t in s.trainers && Sensible(s, reqs)
    ensures Answerable(s, t, Next(reqs)) && Next(reqs) == Asked(reqs, 0)
  {
  }

  lemma {:induction false} ServeUpToIs(s: State, t: int, reqs: seq<Request>, quantum: nat, order: seq<Pokemon> -> seq<Pokemon>)
    requires t in s.trainers && Sensible(s, reqs) && quantum > 0 && Rearranges(order)
    ensures TurnIs(s, t, reqs, quantum, ServeUpTo(s, t, reqs, quantum, order))
    decreases quantum
  {
    hide Serve, Sensible, Rearranges, LastAsked, Asked;
    NextAnswerable(s, t, reqs);
    ServeAnswers(s, t, Next(reqs), order);
    var (s1, reply) := Serve(s, t, Next(reqs), order);
    if reply == NormalTurn && quantum > 1 {
      RestSensible(s, s1, reqs);
      ServeUpToIs(s1, t, Rest(reqs), quantum - 1, order);
      LastAskedRest(reqs, quantum);
    } else {
      LastIsFirst(reqs, quantum);
    }
  }

  lemma LastIsFirst(reqs: seq<Request>, most: nat)
    requires most > 0 && (Ends(Next(reqs)) || most == 1)
    ensures LastAsked(reqs, most) == Next(reqs) && TurnLength(reqs, most) == 1
  {
  }

  lemma {:induction false} ServeUntilDoneIs(s: State, t: int, reqs: seq<Request>, order: seq<Pokemon> -> seq<Pokemon>)
    requires t in s.trainers && Sensible(s, reqs) && Rearranges(order)
    ensures TurnIs(s, t, reqs, |reqs| + 1, ServeUntilDone(s, t, reqs, order))
    decreases |reqs|
  {
    hide Serve, Sensible, Rearranges, LastAsked, Asked;
    NextAnswerable(s, t, reqs);
    ServeAnswers(s, t, Next(reqs), order);
    var (s1, reply) := Serve(s, t, Next(reqs), order);
    if reply == NormalTurn {
      RestSensible(s, s1, reqs);
      ServeUntilDoneIs(s1, t, Rest(reqs), order);
      LastAskedRest(reqs, |reqs| + 1);
    } else {
      LastIsFirst(reqs, |reqs| + 1);
    }
  }

  // ---------- where a turn leads ----------

  /** How many of the first `n` requests ask for a step in that direction. */
  function Steps(reqs: seq<Request>, n: nat, direction: int): nat {
    if n == 0 then 0 else (if Next(reqs) == Advance(direction) then 1 else 0) + Steps(Rest(reqs), n - 1, direction)
  }

  /** The nest last located after the first `n` requests. */
  function Aim(target: char8, reqs: seq<Request>, n: nat): char8
    decreases n
  {
    if n == 0 then target else Aim(if Next(reqs).Locate? then Next(reqs).nest else target, Rest(reqs), n - 1)
  }

  /** The requests of a turn add up: steps to where the trainer stands, the last nest located to its target. */
  ghost predicate LedTo(trainer: Trainer, reqs: seq<Request>, r: Turn, t: int) {
    && t in r.state.trainers
    && var after := r.state.trainers[t];
       && after.x == trainer.x + Steps(reqs, r.served, MOVE_RIGHT) - Steps(reqs, r.served, MOVE_LEFT)
       && after.y == trainer.y + Steps(reqs, r.served, MOVE_DOWN) - Steps(reqs, r.served, MOVE_UP)
       && after.target == (if r.reply == Caught then NOBODY else Aim(trainer.target, reqs, r.served))
  }

  /** One request leads that far. */
  lemma ServeLeads(s: State, t: int, reqs: seq<Request>, order: seq<Pokemon> -> seq<Pokemon>)
    requires Answerable(s, t, Next(reqs)) && Rearranges(order)
    ensures var (s1, reply) := Serve(s, t, Next(reqs), order); LedTo(s.trainers[t], reqs, Turn(s1, reply, 1), t)
  {
    hide Rearranges;
    ServeAnswers(s, t, Next(reqs), order);
    forall d ensures Steps(reqs, 1, d) == if Next(reqs) == Advance(d) then 1 else 0 { assert Steps(Rest(reqs), 0, d) == 0; }
    assert Aim(s.trainers[t].target, reqs, 1) == if Next(reqs).Locate? then Next(reqs).nest else s.trainers[t].target;
  }

  lemma LedOn(a: Trainer, b: Trainer, reqs: seq<Request>, r: Turn, t: int)
    requires b.x == a.x + Steps(reqs, 1, MOVE_RIGHT) - Steps(reqs, 1, MOVE_LEFT)
    requires b.y == a.y + Steps(reqs, 1, MOVE_DOWN) - Steps(reqs, 1, MOVE_UP)
    requires b.target == Aim(a.target, reqs, 1) && LedTo(b, Rest(reqs), r, t)
    ensures LedTo(a, reqs, Turn(r.state, r.reply, r.served + 1), t)
  {
    forall d ensures Steps(reqs, r.served + 1, d) == Steps(reqs, 1, d) + Steps(Rest(reqs), r.served, d) { assert Steps(Rest(reqs), 0, d) == 0; }
    assert Aim(a.target, reqs, r.served + 1) == Aim(Aim(a.target, reqs, 1), Rest(reqs), r.served);
  }

  lemma {:induction false} ServeUpToLeads(s: State, t: int, reqs: seq<Request>, quantum: nat, order: seq<Pokemon> -> seq<Pokemon>)
    requires t in s.trainers && Sensible(s, reqs) && quantum > 0 && Rearranges(order)
    ensures LedTo(s.trainers[t], reqs, ServeUpTo(s, t, reqs, quantum, order), t)
    decreases quantum
  {
    hide Serve, Sensible, Rearranges, LedTo;
    NextAnswerable(s, t, reqs);
    ServeAnswers(s, t, Next(reqs), order);
    ServeLeads(s, t, reqs, order);
    var (s1, reply) := Serve(s, t, Next(reqs), order);
    if reply == NormalTurn && quantum > 1 {
      RestSensible(s, s1, reqs);
      ServeUpToLeads(s1, t, Rest(reqs), quantum - 1, order);
      LedFurther(s, t, reqs, s1, reply, ServeUpTo(s1, t, Rest(reqs), quantum - 1, order));
    }
  }

  lemma LedFurther(s: State, t: int, reqs: seq<Request>, s1: State, reply: Reply, r: Turn)
    requires t in s.trainers && t in s1.trainers && reply == NormalTurn
    requires LedTo(s.trainers[t], reqs, Turn(s1, reply, 1), t) && LedTo(s1.trainers[t], Rest(reqs), r, t)
    ensures LedTo(s.trainers[t], reqs, Turn(r.state, r.reply, r.served + 1), t)
  {
    hide Steps, Aim;
    LedOn(s.trainers[t], s1.trainers[t], reqs, r, t);
  }

  lemma {:induction false} ServeUntilDoneLeads(s: State, t: int, reqs: seq<Request>, order: seq<Pokemon> -> seq<Pokemon>)
    requires t in s.trainers && Sensible(s, reqs) && Rearranges(order)
    ensures LedTo(s.trainers[t], reqs, ServeUntilDone(s, t, reqs, order), t)
    decreases |reqs|
  {
    hide Serve, Sensible, Rearranges, LedTo;
    NextAnswerable(s, t, reqs);
    ServeAnswers(s, t, Next(reqs), order);
    ServeLeads(s, t, reqs, order);
    var (s1, reply) := Serve(s, t, Next(reqs), order);
    if reply == NormalTurn {
      RestSensible(s, s1, reqs);
      ServeUntilDoneLeads(s1, t, Rest(reqs), order);
      LedFurther(s, t, reqs, s1, reply, ServeUntilDone(s1, t, Rest(reqs), order));
    }
  }

  // ---------- after the turn ----------

  /** The trainer `t`, taken out of `ready`, has had its turn: it is gone if it hung up, last in the blocked
      queue if it asked an empty nest, and last in the ready queue otherwise. */
  ghost predicate TurnEnds(s: State, ready: seq<int>, t: int, last: Request, s': State) {
    if last.Hangup? then
      t !in s'.trainers
    else if last.Catch? && last.nest in s.nests && s.nests[last.nest].pokemons == [] then
      s'.ready == ready && s'.blocked == s.blocked + [t] && s'.nests == s.nests && s'.trainers.Keys == s.trainers.Keys
    else
      s'.ready == ready + [t] && s'.blocked == s.blocked && s'.trainers.Keys == s.trainers.Keys
  }

  lemma SettleEnds(s: State, u: State, t: int, reqs: seq<Request>, most: nat, r: Turn)
    requires u == s.(ready := u.ready) && t in s.trainers && most > 0 && Sensible(u, reqs) && TurnIs(u, t, reqs, most, r)
    requires r.reply == Disconnected ==> Releasable(r.state, t)
    ensures TurnEnds(s, u.ready, t, LastAsked(reqs, most), Settle(r.state, t, r.reply))
  {
    hide HandOnAll, LastAsked, Releasable;
    LastSensible(u, reqs, most);
  }

  /** How a round-robin burst ends. */
  lemma RoundRobinEnds(s: State, reqs: seq<Request>, quantum: nat, order: seq<Pokemon> -> seq<Pokemon>, s': State)
    requires RoundRobin(s, reqs, quantum, order, s') && s.ready != [] && Rearranges(order)
    ensures quantum > 0 && TurnEnds(s, s.ready[1..], s.ready[0], LastAsked(reqs, quantum), s')
  {
    hide ServeUpTo, Settle, LastAsked, Rearranges, Releasable, TurnIs, TurnEnds;
    var u, t := s.(ready := s.ready[1..]), s.ready[0];
    ServeUpToIs(u, t, reqs, quantum, order);
    SettleEnds(s, u, t, reqs, quantum, ServeUpTo(u, t, reqs, quantum, order));
  }

  /** The trainer a shortest-distance burst serves: the first that has located no nest, for one request, or
      else one with no longer way to its nest than any other, until its turn ends. */
  ghost predicate Chosen(s: State, i: int, most: nat, reqs: seq<Request>) {
    && 0 <= i < |s.ready| && Present(s, s.ready)
    && if exists j :: 0 <= j < |s.ready| && s.trainers[s.ready[j]].target == NOBODY then
         most == 1 && s.trainers[s.ready[i]].target == NOBODY && forall j :: 0 <= j < i ==> s.trainers[s.ready[j]].target != NOBODY
       else
         most == |reqs| + 1 && forall j :: 0 <= j < |s.ready| ==> Way(s, s.ready[i]) <= Way(s, s.ready[j])
  }

  /** Columns and rows between a trainer and the nest it located. */
  function Way(s: State, t: int): nat
    requires t in s.trainers
  {
    if s.trainers[t].target !in s.nests then 0
    else
      var nest, trainer := s.nests[s.trainers[t].target], s.trainers[t];
      (if nest.x > trainer.x then nest.x - trainer.x else trainer.x - nest.x)
        + (if nest.y > trainer.y then nest.y - trainer.y else trainer.y - nest.y)
  }

  /** It is as many steps as the walk takes. */
  lemma WayIsWalked(s: State, t: int, last: int, at: W.Coor, to: W.Coor)
    requires t in s.trainers && s.trainers[t].target in s.nests && W.InStep(s.trainers[t], at)
    requires s.nests[s.trainers[t].target].x == to.x && s.nests[s.trainers[t].target].y == to.y
    ensures Way(s, t) == |W.Route(last, at, to)| == Distance(s, t)
  {
    hide W.Route;
  }

  lemma FirstAimlessIs(s: State)
    requires Present(s, s.ready)
    ensures var a := FirstAimless(s, 0); a < |s.ready| <==> exists j :: 0 <= j < |s.ready| && s.trainers[s.ready[j]].target == NOBODY
  {
  }

  lemma ShortestFirstChooses(s: State, reqs: seq<Request>, order: seq<Pokemon> -> seq<Pokemon>, i: int, s': State)
    requires ShortestFirst(s, reqs, order, i, s') && s.ready != []
    ensures Chosen(s, i, if FirstAimless(s, 0) < |s.ready| then 1 else |reqs| + 1, reqs)
  {
    hide Serve, ServeUntilDone, Settle, Releasable, FirstAimless;
    FirstAimlessIs(s);
    if FirstAimless(s, 0) == |s.ready| {
      forall j | 0 <= j < |s.ready| ensures Way(s, s.ready[i]) <= Way(s, s.ready[j]) {
        assert Distance(s, s.ready[i]) <= Distance(s, s.ready[j]);
      }
    }
  }

  /** How a shortest-distance burst ends. */
  lemma ShortestFirstEnds(s: State, reqs: seq<Request>, order: seq<Pokemon> -> seq<Pokemon>, i: int, s': State) returns (most: nat)
    requires ShortestFirst(s, reqs, order, i, s') && s.ready != [] && Rearranges(order)
    ensures most > 0 && Chosen(s, i, most, reqs) && TurnEnds(s, Without(s.ready, i), s.ready[i], LastAsked(reqs, most), s')
  {
    hide Serve, ServeUntilDone, Settle, LastAsked, Rearranges, Releasable, TurnIs, TurnEnds, FirstAimless, Distance, Chosen;
    ShortestFirstChooses(s, reqs, order, i, s');
    ChosenIsReady(s, i, if FirstAimless(s, 0) < |s.ready| then 1 else |reqs| + 1, reqs);
    var u, t := s.(ready := Without(s.ready, i)), s.ready[i];
    if FirstAimless(s, 0) < |s.ready| {
      most := 1;
      OneRequest(u, t, reqs, order);
      var (s1, reply) := Serve(u, t, Next(reqs), order);
      SettleEnds(s, u, t, reqs, 1, Turn(s1, reply, 1));
    } else {
      most := |reqs| + 1;
      ServeUntilDoneIs(u, t, reqs, order);
      SettleEnds(s, u, t, reqs, most, ServeUntilDone(u, t, reqs, order));
    }
  }

  lemma ChosenIsReady(s: State, i: int, most: nat, reqs: seq<Request>)
    requires Chosen(s, i, most, reqs)
    ensures 0 <= i < |s.ready| && s.ready[i] in s.trainers && Present(s, s.ready)
  {
  }

  lemma OneRequest(u: State, t: int, reqs: seq<Request>, order: seq<Pokemon> -> seq<Pokemon>)
    requires t in u.trainers && Sensible(u, reqs) && Rearranges(order)
    ensures Answerable(u, t, Next(reqs))
    ensures var (s1, reply) := Serve(u, t, Next(reqs), order); TurnIs(u, t, reqs, 1, Turn(s1, reply, 1))
  {
    hide Rearranges, Sensible;
    NextAnswerable(u, t, reqs);
    ServeUpToIs(u, t, reqs, 1, order);
  }

  /** In a map in order: after its turn a trainer is blocked exactly when its turn ended at an empty nest, and
      is gone exactly when it hung up; otherwise it is ready. */
  lemma WhereItIs(s: State, ready: seq<int>, t: int, last: Request, s': State, all: set<Pokemon>)
    requires Inv(s', [], all) && TurnEnds(s, ready, t, last, s') && t in s.trainers && t !in s.blocked && (last.Catch? ==> last.nest in s.nests)
    ensures t in s'.blocked <==> last.Catch? && s.nests[last.nest].pokemons == []
    ensures t in s'.trainers <==> !last.Hangup?
    ensures t in s'.ready <== t in s'.trainers && t !in s'.blocked
  {
    hide EachOnce, NestsOk, WaitsOk;
    PartitionMembers(s', []);
  }

  // ---------- arrivals ----------

  /** A newcomer stands at (1, 1) and has located nothing and caught nothing. */
  lemma NewcomerStands(s: State, t: int)
    requires t !in s.trainers
    ensures var s' := Arrived(s, t);
      && s'.trainers.Keys == s.trainers.Keys + {t} && W.InStep(s'.trainers[t], W.Coor(1, 1))
      && s'.trainers[t].target == NOBODY && s'.trainers[t].pokemons == []
      && s'.ready == s.ready + [t] && s'.blocked == s.blocked && s'.nests == s.nests
  {
  }
}
