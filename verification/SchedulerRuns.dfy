/** Whole runs of the scheduler; under round robin nobody overtakes a ready trainer. */
module SchedulerRuns {
  import opened Schedulers
  import opened SchedulerSafety
  import opened SchedulerBursts

  // ---------- whole runs ----------

  datatype Event = Arrival(trainer: int) | Burst(reqs: seq<Request>) | Drop(at: nat)

  datatype Rule = Rule(robin: bool, quantum: nat, order: seq<Pokemon> -> seq<Pokemon>)

  /** One event of a map whose trainers keep to the protocol. */
  ghost predicate Step(rule: Rule, s: State, e: Event, s': State) {
    match e
    case Arrival(t) => t !in s.trainers && s' == Arrived(s, t)
    case Drop(i) => Dropped(s, i, s')
    case Burst(reqs) =>
      if rule.robin then RoundRobin(s, reqs, rule.quantum, rule.order, s') && Politely(s, reqs, 0)
      else exists i :: ShortestFirst(s, reqs, rule.order, i, s') && Politely(s, reqs, i)
  }

  lemma StepKeeps(rule: Rule, s: State, e: Event, s': State, all: set<Pokemon>)
    requires Inv(s, [], all) && Rearranges(rule.order) && Step(rule, s, e, s')
    ensures Inv(s', [], all)
  {
    hide Inv, Rearranges, RoundRobin, ShortestFirst, Dropped, Politely;
    match e {
      case Arrival(t) => ArrivedKeeps(s, t, all);
      case Drop(i) => DroppedKeeps(s, i, s', all);
      case Burst(reqs) =>
        if rule.robin {
          RoundRobinKeeps(s, reqs, rule.quantum, rule.order, s', all);
        } else {
          var i :| ShortestFirst(s, reqs, rule.order, i, s') && Politely(s, reqs, i);
          ShortestFirstKeeps(s, reqs, rule.order, i, s', all);
        }
    }
  }

  ghost predicate IsRun(rule: Rule, states: seq<State>, events: seq<Event>) {
    && |states| == |events| + 1
    && forall i :: 0 <= i < |events| ==> Step(rule, states[i], events[i], states[i + 1])
  }

  /** In every run, under either rule: each pokemon is in one place, once; each live trainer is in one
      queue, once; each nest counts its pokemons; nobody is blocked at a nest that has some. */
  lemma {:induction false} RunsKeepEverything(rule: Rule, states: seq<State>, events: seq<Event>, all: set<Pokemon>, i: nat)
    requires IsRun(rule, states, events) && Inv(states[0], [], all) && Rearranges(rule.order) && i < |states|
    ensures Inv(states[i], [], all)
  {
    hide Inv, Step, Rearranges;
    if i > 0 {
      RunsKeepEverything(rule, states, events, all, i - 1);
      assert Step(rule, states[i - 1], events[i - 1], states[i - 1 + 1]);
      StepKeeps(rule, states[i - 1], events[i - 1], states[i], all);
    }
  }

  /** A map without trainers, whose nests count their distinct pokemons, is a start. */
  lemma StartsInOrder(s: State, all: set<Pokemon>)
    requires s.trainers == map[] && s.ready == [] && s.blocked == [] && NestsOk(s)
    requires forall n, i, j :: n in s.nests && 0 <= i < j < |s.nests[n].pokemons| ==> s.nests[n].pokemons[i] != s.nests[n].pokemons[j]
    requires forall p :: p in all <==> p.nest in s.nests && p in s.nests[p.nest].pokemons
    ensures Inv(s, [], all)
  {
    assert s.ready + s.blocked + [] == [];
    forall q, p ensures Copies(s, q, p) <= 1 && (Copies(s, q, p) == 1 ==> p in all && q == At(p.nest)) {
      if q.At? && q.nest in s.nests {
        DistinctOnce(s.nests[q.nest].pokemons, p);
        assert p in s.nests[q.nest].pokemons ==> p.nest == q.nest;
      }
    }
    forall p | p in all ensures Kept(s, p) {
      DistinctOnce(s.nests[p.nest].pokemons, p);
      assert Copies(s, At(p.nest), p) == 1;
    }
  }

  lemma {:induction false} DistinctOnce(l: seq<Pokemon>, p: Pokemon)
    requires forall i, j :: 0 <= i < j < |l| ==> l[i] != l[j]
    ensures multiset(l)[p] == if p in l then 1 else 0
  {
    if l != [] {
      DistinctOnce(l[1..], p);
      assert l == [l[0]] + l[1..];
    }
  }

  // ---------- bounded wait ----------

  lemma HandOnQueue(s: State, t: int)
    requires Releasable(s, t) && s.trainers[t].pokemons != []
    ensures s.ready <= HandOn(s, t).ready
  {
  }

  lemma {:induction false} HandOnAllQueue(s: State, t: int)
    requires Releasable(s, t)
    ensures s.ready <= HandOnAll(s, t).ready
    decreases |s.trainers[t].pokemons|
  {
    hide HandOn;
    if s.trainers[t].pokemons != [] {
      HandOnQueue(s, t);
      HandOnAllQueue(HandOn(s, t), t);
    }
  }

  lemma SettleQueue(s: State, t: int, reply: Reply)
    requires reply == Disconnected ==> Releasable(s, t)
    ensures s.ready <= Settle(s, t, reply).ready
  {
    if reply == Disconnected { HandOnAllQueue(s, t); }
  }

  lemma {:induction false} ServeUpToQueue(s: State, t: int, reqs: seq<Request>, quantum: nat, order: seq<Pokemon> -> seq<Pokemon>)
    requires t in s.trainers && Sensible(s, reqs) && quantum > 0
    ensures ServeUpTo(s, t, reqs, quantum, order).state.ready == s.ready
    decreases quantum
  {
    hide Serve;
    ServeKeepsQueues(s, t, Next(reqs), order);
    var (s1, reply) := Serve(s, t, Next(reqs), order);
    if reply == NormalTurn && quantum > 1 { ServeUpToQueue(s1, t, Rest(reqs), quantum - 1, order); }
  }

  /** A burst takes the head of the queue away; whatever else happens only adds to its end. */
  lemma QueueMoves(rule: Rule, s: State, e: Event, s': State)
    requires rule.robin && Step(rule, s, e, s')
    ensures if e.Burst? && s.ready != [] then s.ready[1..] <= s'.ready else s.ready <= s'.ready
  {
    hide ServeUpTo, Settle, HandOnAll, Releasable;
    match e {
      case Arrival(t) =>
      case Drop(i) => HandOnAllQueue(s.(blocked := Without(s.blocked, i)), s.blocked[i]);
      case Burst(reqs) =>
        if s.ready != [] {
          var u, t := s.(ready := s.ready[1..]), s.ready[0];
          ServeUpToQueue(u, t, reqs, rule.quantum, rule.order);
          var r := ServeUpTo(u, t, reqs, rule.quantum, rule.order);
          SettleQueue(r.state, t, r.reply);
        }
    }
  }

  function Bursts(events: seq<Event>): nat {
    if events == [] then 0 else Bursts(events[..|events| - 1]) + if events[|events| - 1].Burst? then 1 else 0
  }

  /** Under round robin a trainer at position `k` of the ready queue is at position `k` less the bursts
      since, whatever arrives, wakes up or blocks in between: it is at the head, and served next, after
      exactly `k` bursts. */
  lemma {:induction false} NobodyOvertakes(rule: Rule, states: seq<State>, events: seq<Event>, k: nat, i: nat)
    requires rule.robin && IsRun(rule, states, events) && i < |states| && k < |states[0].ready|
    requires Bursts(events[..i]) <= k
    ensures k - Bursts(events[..i]) < |states[i].ready|
    ensures states[i].ready[k - Bursts(events[..i])] == states[0].ready[k]
  {
    hide Step;
    if i > 0 {
      var n := i - 1;
      assert events[..i][..n] == events[..n] && events[..i][n] == events[n];
      NobodyOvertakes(rule, states, events, k, n);
      assert Step(rule, states[n], events[n], states[n + 1]);
      QueueMoves(rule, states[n], events[n], states[i]);
    } else {
      assert events[..0] == [];
    }
  }
}
