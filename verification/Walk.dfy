/** The trainer's walk to a nest: one request per step, answered by the map with the new position. */
module Walks {
  import opened Words
  import opened Schedulers

  /** A position as it travels: two unsigned bytes. */
  datatype Coor = Coor(x: byte, y: byte)

  function Manhattan(a: Coor, b: Coor): nat {
    Abs(a.x - b.x) + Abs(a.y - b.y)
  }

  predicate IsVertical(move: int) {
    move == MOVE_UP || move == MOVE_DOWN
  }

  /** `calcular_movimiento`: the other axis than last time, as long as there is something to gain there. */
  function NextMove(last: int, at: Coor, to: Coor): (m: int)
    ensures m in {MOVE_UP, MOVE_DOWN, MOVE_LEFT, MOVE_RIGHT}
    ensures at.x != to.x && at.y != to.y ==> (IsVertical(m) <==> !IsVertical(last))
    ensures at.x == to.x && at.y != to.y ==> IsVertical(m)
    ensures at.x != to.x && at.y == to.y ==> !IsVertical(m)
  {
    if (IsVertical(last) && at.x != to.x) || at.y == to.y then
      if at.x < to.x then MOVE_RIGHT else MOVE_LEFT
    else
      if at.y < to.y then MOVE_DOWN else MOVE_UP
  }

  function ByteOf(x: int): byte {
    x % 0x100
  }

  /** What the map answers after moving its trainer: the position, cut to bytes. */
  function Answer(t: Trainer): Coor {
    Coor(ByteOf(t.x), ByteOf(t.y))
  }

  /** The map's trainer stands where its own client believes to be. */
  predicate InStep(t: Trainer, at: Coor) {
    t.x == at.x && t.y == at.y
  }

  /** A move towards the nest is one step nearer, for the client as for the map; nothing wraps around. */
  lemma MoveGetsNearer(t: Trainer, last: int, at: Coor, to: Coor)
    requires InStep(t, at) && at != to
    ensures var t' := Moved(t, NextMove(last, at, to));
      InStep(t', Answer(t')) && Manhattan(Answer(t'), to) == Manhattan(at, to) - 1
  {
  }

  /** The whole walk. */
  function Route(last: int, at: Coor, to: Coor): (r: seq<int>)
    ensures |r| == Manhattan(at, to)
    decreases Manhattan(at, to)
  {
    if at == to then []
    else
      var m := NextMove(last, at, to);
      var next := Answer(Moved(Trainer(at.x, at.y, NOBODY, []), m));
      MoveGetsNearer(Trainer(at.x, at.y, NOBODY, []), last, at, to);
      [m] + Route(m, next, to)
  }

  function Step(at: Coor, m: int): Coor {
    Answer(Moved(Trainer(at.x, at.y, NOBODY, []), m))
  }

  /** Where the first moves of a list lead. */
  function After(at: Coor, moves: seq<int>): Coor
    decreases |moves|
  {
    if moves == [] then at else After(Step(at, moves[0]), moves[1..])
  }

  /** The walk ends at the nest. */
  lemma {:induction false} RouteArrives(last: int, at: Coor, to: Coor)
    ensures After(at, Route(last, at, to)) == to
    decreases Manhattan(at, to)
  {
    if at != to {
      var m := NextMove(last, at, to);
      MoveGetsNearer(Trainer(at.x, at.y, NOBODY, []), last, at, to);
      RouteArrives(m, Step(at, m), to);
      assert Route(last, at, to)[1..] == Route(m, Step(at, m), to);
    }
  }

  lemma AtMostOneNearer(at: Coor, m: int, to: Coor)
    requires NoWrap(at, m)
    ensures Manhattan(at, to) <= Manhattan(Step(at, m), to) + 1
  {
  }

  /** No way of moving one step at a time is shorter. */
  lemma {:induction false} NoShorterWay(at: Coor, to: Coor, moves: seq<int>)
    requires After(at, moves) == to && forall k :: 0 <= k < |moves| ==> NoWrap(After(at, moves[..k]), moves[k])
    ensures |moves| >= Manhattan(at, to)
    decreases |moves|
  {
    hide NoWrap, Manhattan, Step;
    if moves == [] {
      AlreadyThere(at);
    } else {
      assert moves[..0] == [];
      assert NoWrap(at, moves[0]);
      AtMostOneNearer(at, moves[0], to);
      forall k | 0 <= k < |moves| - 1 ensures NoWrap(After(Step(at, moves[0]), moves[1..][..k]), moves[1..][k]) {
        assert moves[..k + 1][1..] == moves[1..][..k];
        assert NoWrap(After(at, moves[..k + 1]), moves[k + 1]);
      }
      NoShorterWay(Step(at, moves[0]), to, moves[1..]);
    }
  }

  lemma AlreadyThere(at: Coor)
    ensures Manhattan(at, at) == 0
  {
  }

  /** A move that does not leave the board at an edge. */
  predicate NoWrap(at: Coor, m: int) {
    var t := Moved(Trainer(at.x, at.y, NOBODY, []), m);
    0 <= t.x < 0x100 && 0 <= t.y < 0x100
  }

  /** As long as both coordinates differ, moves alternate between the axes; the first one, after a
      pretended move to the right, is vertical. */
  lemma {:induction false} RouteAlternates(last: int, at: Coor, to: Coor, k: nat)
    requires k < |Route(last, at, to)|
    requires var here := After(at, Route(last, at, to)[..k]); here.x != to.x && here.y != to.y
    ensures IsVertical(Route(last, at, to)[k]) <==> !IsVertical(if k == 0 then last else Route(last, at, to)[k - 1])
    decreases Manhattan(at, to)
  {
    var r := Route(last, at, to);
    var m := NextMove(last, at, to);
    if k == 0 {
      assert r[..0] == [];
    } else {
      var rest := Route(m, Step(at, m), to);
      MoveGetsNearer(Trainer(at.x, at.y, NOBODY, []), last, at, to);
      assert r == [m] + rest;
      assert r[..k][1..] == rest[..k - 1];
      RouteAlternates(m, Step(at, m), to, k - 1);
    }
  }

  // ---------- the loop ----------

  /** A trainer's client and the record the map keeps of it. */
  class Coach {
    var coor: Coor
    var record: Trainer
    ghost var moves: seq<int>

    constructor (record: Trainer)
      requires InStep(record, Answer(record))
      ensures this.record == record && coor == Answer(record) && moves == []
    {
      this.record, coor, moves := record, Answer(record), [];
    }

    /** One request and its answer. */
    method MoveTo(movement: int)
      modifies this
      ensures record == Moved(old(record), movement) && coor == Answer(record) && moves == old(moves) + [movement]
    {
      record := Moved(record, movement);
      coor := Answer(record);
      moves := moves + [movement];
    }

    /** The trainer ends at the nest, on the map as in its own eyes, by exactly the alternating route. */
    method MoveToPokemon(to: Coor)
      requires InStep(record, coor)
      modifies this
      ensures coor == to && InStep(record, to) && record.target == old(record).target && record.pokemons == old(record).pokemons
      ensures moves == old(moves) + Route(MOVE_RIGHT, old(coor), to)
    {
      hide NextMove, Answer, Manhattan, Route, Moved;
      var last := MOVE_RIGHT;
      while coor != to
        invariant InStep(record, coor) && record.target == old(record).target && record.pokemons == old(record).pokemons
        invariant moves + Route(last, coor, to) == old(moves) + Route(MOVE_RIGHT, old(coor), to)
        decreases Manhattan(coor, to)
      {
        MoveGetsNearer(record, last, coor, to);
        MovedKeeps(record, NextMove(last, coor, to));
        RouteStep(record, last, coor, to);
        last := NextMove(last, coor, to);
        MoveTo(last);
      }
      NoRoute(last, to);
    }
  }

  lemma NoRoute(last: int, to: Coor)
    ensures Route(last, to, to) == []
  {
  }

  /** The route's first move is the one made next, whatever else the map's record holds. */
  lemma RouteStep(t: Trainer, last: int, at: Coor, to: Coor)
    requires InStep(t, at) && at != to
    ensures var m := NextMove(last, at, to);
      Route(last, at, to) == [m] + Route(m, Answer(Moved(t, m)), to)
  {
    hide NextMove;
    SamePlace(t, at, NextMove(last, at, to));
  }

  lemma SamePlace(t: Trainer, at: Coor, m: int)
    requires InStep(t, at)
    ensures Answer(Moved(t, m)) == Answer(Moved(Trainer(at.x, at.y, NOBODY, []), m))
  {
  }

  lemma MovedKeeps(t: Trainer, m: int)
    ensures Moved(t, m).target == t.target && Moved(t, m).pokemons == t.pokemons
  {
  }
}
