/** A map's scheduler as functions of its state. */
module Schedulers {

  /** A character as the nests store their count: 8 bits, signed. */
  type char8 = x: int | -0x80 <= x < 0x80

  function AsChar(n: int): char8 {
    (n + 0x80) % 0x100 - 0x80
  }

  /** A pokemon of the nest `nest`. */
  datatype Pokemon = Pokemon(nest: char8, name: string)

  /** `target` is the nest last located, NOBODY after a capture. */
  datatype Trainer = Trainer(x: int, y: int, target: char8, pokemons: seq<Pokemon>)

  datatype Nest = Nest(x: char8, y: char8, count: char8, pokemons: seq<Pokemon>)

  const NOBODY: char8 := 0

  /** Trainers by socket, nests by letter, and the two queues of sockets. */
  datatype State = State(trainers: map<int, Trainer>, nests: map<char8, Nest>, ready: seq<int>, blocked: seq<int>)

  datatype Request = Locate(nest: char8) | Advance(direction: int) | Catch(nest: char8) | Other | Hangup

  datatype Reply = NormalTurn | Caught | NotFound | Disconnected

  const MOVE_UP := 72
  const MOVE_RIGHT := 77
  const MOVE_DOWN := 80
  const MOVE_LEFT := 75

  /** How the sort before a capture leaves a nest's list: some rearrangement of it. */
  ghost predicate Rearranges(order: seq<Pokemon> -> seq<Pokemon>) {
    forall l :: multiset(order(l)) == multiset(l)
  }

  // ---------- one request ----------

  function Moved(t: Trainer, direction: int): Trainer {
    if direction == MOVE_UP then t.(y := t.y - 1)
    else if direction == MOVE_DOWN then t.(y := t.y + 1)
    else if direction == MOVE_RIGHT then t.(x := t.x + 1)
    else if direction == MOVE_LEFT then t.(x := t.x - 1)
    else t
  }

  predicate Answerable(s: State, t: int, req: Request) {
    t in s.trainers && (req.Locate? || req.Catch? ==> req.nest in s.nests)
  }

  /** `atenderSolicitud`. */
  function Serve(s: State, t: int, req: Request, order: seq<Pokemon> -> seq<Pokemon>): (State, Reply)
    requires Answerable(s, t, req)
  {
    var trainer := s.trainers[t];
    match req
    case Locate(n) => (s.(trainers := s.trainers[t := trainer.(target := n)]), NormalTurn)
    case Advance(d) => (s.(trainers := s.trainers[t := Moved(trainer, d)]), NormalTurn)
    case Catch(n) =>
      var sorted := order(s.nests[n].pokemons);
      if sorted == [] then (s.(nests := s.nests[n := s.nests[n].(pokemons := [])]), NotFound)
      else
        (s.(trainers := s.trainers[t := trainer.(pokemons := trainer.pokemons + [sorted[0]], target := NOBODY)],
            nests := s.nests[n := s.nests[n].(pokemons := sorted[1..], count := AsChar(s.nests[n].count - 1))]), Caught)
    case Other => (s, NormalTurn)
    case Hangup => (s, Disconnected)
  }

  // ---------- release ----------

  predicate Present(s: State, q: seq<int>) {
    forall i :: 0 <= i < |q| ==> q[i] in s.trainers
  }

  /** The first blocked trainer, in queue order, that waits for the nest; the queue's length if none does. */
  function FirstWaiting(s: State, nest: char8, from: nat): (i: nat)
    requires from <= |s.blocked| && Present(s, s.blocked)
    ensures from <= i <= |s.blocked| && (i < |s.blocked| ==> s.trainers[s.blocked[i]].target == nest)
    ensures forall j :: from <= j < i ==> s.trainers[s.blocked[j]].target != nest
    decreases |s.blocked| - from
  {
    if from == |s.blocked| || s.trainers[s.blocked[from]].target == nest then from else FirstWaiting(s, nest, from + 1)
  }

  predicate Releasable(s: State, t: int) {
    && t in s.trainers && t !in s.blocked && Present(s, s.blocked)
    && (forall i :: 0 <= i < |s.trainers[t].pokemons| ==> s.trainers[t].pokemons[i].nest in s.nests)
  }

  /** The first pokemon of `t` goes to the trainer that has waited longest for it, which wakes up, or
      back to its nest. */
  function HandOn(s: State, t: int): (r: State)
    requires Releasable(s, t) && s.trainers[t].pokemons != []
    ensures Releasable(r, t) && r.trainers[t].pokemons == s.trainers[t].pokemons[1..]
  {
    var p := s.trainers[t].pokemons[0];
    var trainers := s.trainers[t := s.trainers[t].(pokemons := s.trainers[t].pokemons[1..])];
    var i := FirstWaiting(s, p.nest, 0);
    if i < |s.blocked| then
      var b := s.blocked[i];
      State(trainers[b := trainers[b].(pokemons := trainers[b].pokemons + [p], target := NOBODY)], s.nests,
            s.ready + [b], s.blocked[..i] + s.blocked[i + 1..])
    else
      var nest := s.nests[p.nest];
      State(trainers, s.nests[p.nest := nest.(pokemons := nest.pokemons + [p], count := AsChar(nest.count + 1))],
            s.ready, s.blocked)
  }

  function HandOnAll(s: State, t: int): (r: State)
    requires Releasable(s, t)
    ensures Releasable(r, t) && r.trainers[t].pokemons == []
    decreases |s.trainers[t].pokemons|
  {
    if s.trainers[t].pokemons == [] then s else HandOnAll(HandOn(s, t), t)
  }

  /** `liberarRecursos2`: everything is handed on, then the trainer is gone. */
  function Release(s: State, t: int): State
    requires Releasable(s, t)
  {
    var r := HandOnAll(s, t);
    r.(trainers := r.trainers - {t})
  }

  // ---------- bursts ----------

  /** The requests a trainer sends, as far as they are served: at most `quantum` of them, until one ends
      the burst. A stream that runs dry is a connection closed. */
  function Next(reqs: seq<Request>): Request {
    if reqs == [] then Hangup else reqs[0]
  }

  function Rest(reqs: seq<Request>): seq<Request> {
    if reqs == [] then [] else reqs[1..]
  }

  /** Every nest a request names exists. */
  predicate Sensible(s: State, reqs: seq<Request>) {
    forall i :: 0 <= i < |reqs| ==> reqs[i].Locate? || reqs[i].Catch? ==> reqs[i].nest in s.nests
  }

  datatype Turn = Turn(state: State, reply: Reply, served: nat)

  function ServeUpTo(s: State, t: int, reqs: seq<Request>, quantum: nat, order: seq<Pokemon> -> seq<Pokemon>): (r: Turn)
    requires t in s.trainers && Sensible(s, reqs) && quantum > 0
    ensures 1 <= r.served <= quantum
    ensures r.reply == NormalTurn ==> r.served == quantum
    decreases quantum
  {
    var (s1, reply) := Serve(s, t, Next(reqs), order);
    if reply != NormalTurn || quantum == 1 then Turn(s1, reply, 1)
    else
      var r := ServeUpTo(s1, t, Rest(reqs), quantum - 1, order);
      Turn(r.state, r.reply, r.served + 1)
  }

  function ServeUntilDone(s: State, t: int, reqs: seq<Request>, order: seq<Pokemon> -> seq<Pokemon>): (r: Turn)
    requires t in s.trainers && Sensible(s, reqs)
    ensures r.reply != NormalTurn
    decreases |reqs|
  {
    var (s1, reply) := Serve(s, t, Next(reqs), order);
    if reply != NormalTurn then Turn(s1, reply, 1)
    else
      var r := ServeUntilDone(s1, t, Rest(reqs), order);
      Turn(r.state, r.reply, r.served + 1)
  }

  /** What becomes of the trainer after its turn. */
  function Settle(s: State, t: int, reply: Reply): State
    requires reply == Disconnected ==> Releasable(s, t)
  {
    match reply
    case Disconnected => Release(s, t)
    case NotFound => s.(blocked := s.blocked + [t])
    case _ => s.(ready := s.ready + [t])
  }

  /** The position of the first ready trainer without a target, or the queue's length. */
  function FirstAimless(s: State, from: nat): (i: nat)
    requires from <= |s.ready| && Present(s, s.ready)
    ensures from <= i <= |s.ready| && (i < |s.ready| ==> s.trainers[s.ready[i]].target == NOBODY)
    ensures forall j :: from <= j < i ==> s.trainers[s.ready[j]].target != NOBODY
    decreases |s.ready| - from
  {
    if from == |s.ready| || s.trainers[s.ready[from]].target == NOBODY then from else FirstAimless(s, from + 1)
  }

  function Abs(x: int): nat {
    if x < 0 then -x else x
  }

  /** How far a trainer is from the nest it located. */
  function Distance(s: State, t: int): nat
    requires t in s.trainers && s.trainers[t].target in s.nests
  {
    var nest := s.nests[s.trainers[t].target];
    Abs(nest.x - s.trainers[t].x) + Abs(nest.y - s.trainers[t].y)
  }

  predicate AllAimed(s: State) {
    forall i :: 0 <= i < |s.ready| ==> s.ready[i] in s.trainers && s.trainers[s.ready[i]].target in s.nests
  }

  /** Nobody in the ready queue is nearer to its nest. */
  predicate Nearest(s: State, i: int)
    requires AllAimed(s)
  {
    0 <= i < |s.ready| && forall j :: 0 <= j < |s.ready| ==> Distance(s, s.ready[i]) <= Distance(s, s.ready[j])
  }

  function Without(q: seq<int>, i: nat): seq<int>
    requires i < |q|
  {
    q[..i] + q[i + 1..]
  }

  /** `ejecutarRafagaRR`: the head of the ready queue is served up to `quantum` requests. */
  ghost predicate RoundRobin(s: State, reqs: seq<Request>, quantum: nat, order: seq<Pokemon> -> seq<Pokemon>, s': State) {
    if s.ready == [] then s' == s
    else
      && quantum > 0 && Sensible(s, reqs) && s.ready[0] in s.trainers
      && var t := s.ready[0];
         var r := ServeUpTo(s.(ready := s.ready[1..]), t, reqs, quantum, order);
         (r.reply == Disconnected ==> Releasable(r.state, t)) && s' == Settle(r.state, t, r.reply)
  }

  /** `ejecutarRafagaSRDF`: one request of the first trainer without a target, or else requests of a
      nearest trainer until one ends its turn. */
  ghost predicate ShortestFirst(s: State, reqs: seq<Request>, order: seq<Pokemon> -> seq<Pokemon>, i: int, s': State) {
    if s.ready == [] then s' == s
    else
      && Sensible(s, reqs) && Present(s, s.ready)
      && var a := FirstAimless(s, 0);
         if a < |s.ready| then
           var t := s.ready[a];
           var (s1, reply) := Serve(s.(ready := Without(s.ready, a)), t, Next(reqs), order);
           i == a && (reply == Disconnected ==> Releasable(s1, t)) && s' == Settle(s1, t, reply)
         else
           && AllAimed(s) && Nearest(s, i)
           && var t := s.ready[i];
              var r := ServeUntilDone(s.(ready := Without(s.ready, i)), t, reqs, order);
              (r.reply == Disconnected ==> Releasable(r.state, t)) && s' == Settle(r.state, t, r.reply)
  }

  // ---------- the other events ----------

  const ARRIVAL := Trainer(1, 1, NOBODY, [])

  function Arrived(s: State, t: int): State {
    s.(trainers := s.trainers[t := ARRIVAL], ready := s.ready + [t])
  }

  /** A blocked trainer whose connection closes. */
  ghost predicate Dropped(s: State, i: int, s': State) {
    && 0 <= i < |s.blocked|
    && var u := s.(blocked := Without(s.blocked, i));
       Releasable(u, s.blocked[i]) && s' == Release(u, s.blocked[i])
  }
}
